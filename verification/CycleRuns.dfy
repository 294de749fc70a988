/**
 What holds of every run of the loop, against every world.
 */
module CycleRuns {
  import opened Text
  import opened Passes
  import opened Cycle

  predicate IsLeg(e: Event, leg: Leg) { e.Ran? && e.leg == leg }

  /** Every step of a run was allowed by the run before it. */
  lemma {:induction false} EachStepAllowed(w: World, r: Request, t: seq<Event>, j: nat)
    requires Legal(w, r, t) && j < |t|
    ensures Legal(w, r, t[..j]) && Allowed(w, r, t[..j], t[j])
    ensures j > 0 ==> Opening(t[..j]) == Opening(t)
    decreases |t|
  {
    hide Allowed;
    if j < |t| - 1 {
      EachStepAllowed(w, r, Front(t), j);
      assert Front(t)[..j] == t[..j];
    }
  }

  lemma {:induction false} LoadedBefore(t: seq<Event>, j: nat)
    requires j <= |t| && Loaded(t[..j])
    ensures 0 < j && t[j - 1].Load? && t[j - 1].state.Some? && Last(t[..j]) == t[j - 1]
    ensures Opening(t[..j]) == Opening(t)
  {
  }

  lemma {:induction false} LegNeedsLoad(w: World, r: Request, t: seq<Event>, e: Event)
    requires Allowed(w, r, t, e) && e.Ran?
    ensures Loaded(t)
  {
    hide ReadReview, MarkerOf, Runs, LastLeg, CurrentReviewPass, CurrentPassComplete, AtBound, LoadedAfter, Opening;
  }

  /** Between any two legs the state is loaded again, right before the second. */
  lemma {:induction false} ReloadBetweenLegs(w: World, r: Request, t: seq<Event>, i: nat, j: nat)
    requires Legal(w, r, t) && i < j < |t| && t[i].Ran? && t[j].Ran?
    ensures i < j - 1 && t[j - 1].Load? && t[j - 1].state.Some?
  {
    EachStepAllowed(w, r, t, j);
    LegNeedsLoad(w, r, t[..j], t[j]);
    LoadedBefore(t, j);
    hide Legal, Allowed, Loaded;
  }

  /** A review leg below the cap runs only when the latest load showed a pass
      below it, and is told it continues exactly when another ran before. */
  lemma {:induction false} ReviewsBelowTheCap(w: World, r: Request, t: seq<Event>, j: nat)
    requires Legal(w, r, t) && j < |t| && IsLeg(t[j], Review) && !AtBound(t)
    ensures 0 < j && t[j - 1].Load? && t[j - 1].state.Some?
    ensures Opening(t).Some? && PassOf(t[j - 1].state.value) < Opening(t).value.maxPasses
    ensures t[j].request == LegRequestOf(r, Runs(t[..j], Review) > 0)
  {
    EachStepAllowed(w, r, t, j);
    hide Legal, ReadReview, MarkerOf, Runs, LastLeg, CurrentReviewPass;
    assert Loaded(t[..j]);
    LoadedBefore(t, j);
  }

  /** A resolve leg runs only when the review just loaded says to continue, and
      at the cap only over a completed review whose resolve is still owed. */
  lemma {:induction false} ResolvesOnlyWhenReviewContinues(w: World, r: Request, t: seq<Event>, j: nat)
    requires Legal(w, r, t) && j < |t| && IsLeg(t[j], Resolve)
    ensures 0 < j && t[j - 1].Load? && t[j - 1].state.Some?
    ensures var s := t[j - 1].state.value;
            && ReadReview(w.policy, s, PassOf(s)).Continues?
            && (AtBound(t) ==> MarkerOf(s.markers, PassOf(s), Review).state.Complete? && !CurrentPassComplete(s.markers, PassOf(s), Resolve))
            && (!AtBound(t) ==> 1 < j && IsLeg(t[j - 2], Review))
  {
    EachStepAllowed(w, r, t, j);
    LegNeedsLoad(w, r, t[..j], t[j]);
    LoadedBefore(t, j);
    assert ResolveAllowed(w, r, t[..j], t[j].request);
    hide Legal, Allowed, ReadReview, MarkerOf, Runs, LastLeg, CurrentReviewPass, CurrentPassComplete, Loaded;
    if !AtBound(t) {
      assert LoadedAfter(t[..j], Review);
      assert Front(t[..j]) == t[..j - 1] && Last(t[..j - 1]) == t[j - 2];
    }
  }

  /** At the cap a review leg resumes what is unfinished: it is let past the
      bound exactly when the claim it resumes is open. */
  lemma {:induction false} BoundResumesOnly(w: World, r: Request, t: seq<Event>, j: nat)
    requires Legal(w, r, t) && j < |t| && IsLeg(t[j], Review) && AtBound(t)
    ensures 0 < j && t[j - 1].Load? && t[j - 1].state.Some?
    ensures var s := t[j - 1].state.value;
            var m := MarkerOf(s.markers, PassOf(s), Review);
            !m.state.Complete? && t[j].request == LegRequestOf(r, !m.state.Started?)
  {
    EachStepAllowed(w, r, t, j);
    hide Legal, ReadReview, MarkerOf, Runs, LastLeg, CurrentReviewPass;
    assert Loaded(t[..j]);
    LoadedBefore(t, j);
  }

  /** Only the first load names the trigger, so the refusals it gates apply once. */
  lemma {:induction false} TriggerNamedOnce(w: World, r: Request, t: seq<Event>, j: nat)
    requires Legal(w, r, t) && j < |t| && t[j].Load?
    ensures t[j].asked.trigger == if j == 0 then r.trigger else Human
  {
    EachStepAllowed(w, r, t, j);
    hide Legal, ReadResolve, PassRead, Latest, AtBound;
    assert t[..j] == [] <==> j == 0;
  }

  /* ---- alternation and counts ---- */

  function Legs(t: seq<Event>): seq<Leg> {
    if t == [] then [] else if Last(t).Ran? then Legs(Front(t)) + [Last(t).leg] else Legs(Front(t))
  }

  predicate Alternates(legs: seq<Leg>) {
    forall k :: 0 <= k < |legs| ==> legs[k] == if k % 2 == 0 then Review else Resolve
  }

  lemma {:induction false} LegsCounted(t: seq<Event>)
    ensures |Legs(t)| == Runs(t, Review) + Runs(t, Resolve)
    ensures LastLeg(t) == if Legs(t) == [] then None else Some(Legs(t)[|Legs(t)| - 1])
  {
    if t != [] {
      LegsCounted(Front(t));
    }
  }

  lemma {:induction false} LastLegIs(t: seq<Event>, leg: Leg)
    requires LoadedAfter(t, leg)
    ensures LastLeg(t) == Some(leg)
  {
  }

  lemma {:induction false} FrontBound(t: seq<Event>)
    requires t != [] && Front(t) != []
    ensures Opening(Front(t)) == Opening(t) && AtBound(Front(t)) == AtBound(t) && MaxOf(Front(t)) == MaxOf(t)
  {
  }

  lemma {:induction false} NoLegOpens(w: World, r: Request, t: seq<Event>)
    requires Legal(w, r, t) && t != [] && Last(t).Ran?
    ensures Front(t) != []
  {
    assert Allowed(w, r, Front(t), Last(t));
    hide Legal, ReadReview, MarkerOf, Runs, LastLeg;
    assert Loaded(Front(t));
  }

  lemma {:induction false} LegAfter(w: World, r: Request, t: seq<Event>)
    requires Legal(w, r, t) && t != [] && Last(t).Ran? && !AtBound(t)
    ensures Last(t).leg.Review? <==> LastLeg(Front(t)) != Some(Review)
  {
    NoLegOpens(w, r, t);
    var front := Front(t);
    FrontBound(t);
    assert Allowed(w, r, front, Last(t));
    hide Legal, ReadReview, Runs, LastLeg, MarkerOf, CurrentReviewPass, AtBound;
    if Last(t).leg.Resolve? {
      LastLegIs(front, Review);
    }
  }

  lemma {:induction false} OneMoreLeg(legs: seq<Leg>, next: Leg)
    requires Alternates(legs) && (next.Review? <==> legs == [] || legs[|legs| - 1] != Review)
    ensures Alternates(legs + [next])
  {
  }

  /** Below the cap the legs alternate, a review leg first. */
  lemma {:induction false} LegsAlternate(w: World, r: Request, t: seq<Event>)
    requires Legal(w, r, t) && !AtBound(t)
    ensures Alternates(Legs(t))
    decreases |t|
  {
    hide Allowed, AtBound, Alternates;
    if t == [] {
      assert Alternates([]) by { NoLegs(); }
    } else {
      var front := Front(t);
      if front == [] {
        NoLegs();
      } else {
        FrontBound(t);
        LegsAlternate(w, r, front);
      }
      if Last(t).Ran? {
        LegAfter(w, r, t);
        LegsCounted(front);
        OneMoreLeg(Legs(front), Last(t).leg);
      }
    }
  }

  lemma {:induction false} NoLegs()
    ensures Alternates([]) && Legs([]) == []
  {
  }

  lemma {:induction false} AlternationCounts(t: seq<Event>)
    requires Alternates(Legs(t))
    ensures Runs(t, Resolve) <= Runs(t, Review) <= Runs(t, Resolve) + 1
    ensures Runs(t, Review) == Runs(t, Resolve) <==> |Legs(t)| % 2 == 0
    decreases |t|
  {
    if t != [] {
      assert forall k :: 0 <= k < |Legs(Front(t))| ==> Legs(Front(t))[k] == Legs(t)[k];
      AlternationCounts(Front(t));
      LegsCounted(Front(t));
      LegsCounted(t);
    }
  }

  /** Each kind of leg runs at most as often as the cap the first load fixed
      allows, and at most once when the run opened at it. */
  lemma {:induction false} LegsWithinTheCap(w: World, r: Request, t: seq<Event>)
    requires Legal(w, r, t)
    ensures !AtBound(t) && Runs(t, Review) > 0 ==> Runs(t, Resolve) <= Runs(t, Review) <= MaxOf(t)
    ensures !AtBound(t) && Runs(t, Review) == 0 ==> Runs(t, Resolve) == 0
    ensures AtBound(t) ==> Runs(t, Review) <= 1 && Runs(t, Resolve) <= 1
  {
    if !AtBound(t) {
      LegsAlternate(w, r, t);
      AlternationCounts(t);
      hide Allowed;
    }
    ReviewsCounted(w, r, t);
    hide Legal;
  }

  lemma {:induction false} ReviewsCounted(w: World, r: Request, t: seq<Event>)
    requires Legal(w, r, t)
    ensures !AtBound(t) && Runs(t, Review) > 0 ==> Runs(t, Review) <= MaxOf(t)
    ensures AtBound(t) ==> Runs(t, Review) <= 1 && Runs(t, Resolve) <= 1
    decreases |t|
  {
    if t != [] {
      var front := Front(t);
      ReviewsCounted(w, r, front);
      assert Allowed(w, r, front, Last(t));
      if front != [] {
        FrontBound(t);
      }
      if Last(t).Ran? {
        NoLegOpens(w, r, t);
      }
      hide Legal, ReadReview, LastLeg, MarkerOf, CurrentReviewPass, AtBound, Opening;
      RunsOfFront(t);
      hide Runs;
    }
  }

  lemma {:induction false} RunsOfFront(t: seq<Event>)
    requires t != []
    ensures Runs(t, Review) == Runs(Front(t), Review) + (if IsLeg(Last(t), Review) then 1 else 0)
    ensures Runs(t, Resolve) == Runs(Front(t), Resolve) + (if IsLeg(Last(t), Resolve) then 1 else 0)
    ensures Front(t) == [] ==> Runs(Front(t), Review) == 0 && Runs(Front(t), Resolve) == 0
  {
  }

  /* ---- the pass number ---- */

  /** A review leg raises the pass by at most one, and nothing else raises it. */
  ghost predicate Climbs(t: seq<Event>) {
    t == [] ||
    (Climbs(Front(t)) &&
     (Loaded(t) && Latest(Front(t)).Some? ==>
       PassOf(Last(t).state.value) <=
       PassOf(Latest(Front(t)).value) + if Front(t) != [] && IsLeg(Last(Front(t)), Review) then 1 else 0))
  }

  /** In such a world the pass of a run that opened below its cap never exceeds
      the cap. */
  lemma {:induction false} PassNeverExceeds(w: World, r: Request, t: seq<Event>)
    requires Legal(w, r, t) && Climbs(t) && !AtBound(t)
    ensures Latest(t).Some? ==> PassOf(Latest(t).value) <= MaxOf(t)
    ensures t != [] && IsLeg(Last(t), Review) ==> Latest(t).Some? && PassOf(Latest(t).value) < MaxOf(t)
    decreases |t|
  {
    if t != [] {
      var front := Front(t);
      assert Allowed(w, r, front, Last(t)) && Climbs(front);
      if front == [] {
        OnlyEvent(t);
        hide Legal, Climbs, Latest, CurrentReviewPass, Runs, LastLeg, ReadReview, ReadResolve, MarkerOf;
      } else {
        FrontBound(t);
        PassNeverExceeds(w, r, front);
        LatestOf(t);
        hide Legal, Climbs, Latest, CurrentReviewPass, Runs, LastLeg, ReadReview, ReadResolve, MarkerOf, AtBound, MaxOf, LoadAllowed, EndAllowed, NudgeAllowed;
      }
    }
  }

  lemma {:induction false} OnlyEvent(t: seq<Event>)
    requires t != [] && Front(t) == []
    ensures Latest(t) == Opening(t)
  {
    assert Latest([]) == None;
  }

  lemma {:induction false} LatestOf(t: seq<Event>)
    requires t != []
    ensures Latest(t) == if Loaded(t) then Last(t).state else Latest(Front(t))
    ensures Front(t) != [] && Loaded(Front(t)) ==> Latest(Front(t)) == Last(Front(t)).state
    ensures Climbs(t) && Loaded(t) && Latest(Front(t)).Some? ==>
              PassOf(Last(t).state.value) <=
              PassOf(Latest(Front(t)).value) + if Front(t) != [] && IsLeg(Last(Front(t)), Review) then 1 else 0
  {
    hide CurrentReviewPass;
  }

  /* ---- endings ---- */

  /** Nothing follows the line a run ends on but one tip, and no tip follows a
      halt, or anything when the run opened at its cap. */
  lemma {:induction false} NothingAfterTheEnd(w: World, r: Request, t: seq<Event>, j: nat)
    requires Legal(w, r, t) && j < |t| && (t[j].End? || t[j].Nudge?)
    ensures j == |t| - 1 || (j == |t| - 2 && t[j].End? && t[j + 1].Nudge?)
    ensures t[j].Nudge? ==> !r.noTips && !AtBound(t) && 0 < j && t[j - 1].End?
    ensures t[j].Nudge? ==> var e := t[j - 1].ending; e.CapReached? || e.ReportedConverged? || e.EscalationStands?
  {
    if j + 1 < |t| {
      NextAfterEnd(w, r, t, j);
      if j + 2 < |t| {
        NextAfterEnd(w, r, t, j + 1);
      }
    }
    if t[j].Nudge? {
      EachStepAllowed(w, r, t, j);
      assert Last(t[..j]) == t[j - 1];
      BoundOfPrefix(t, j);
    }
    hide Legal;
  }

  lemma {:induction false} BoundOfPrefix(t: seq<Event>, j: nat)
    requires 0 < j <= |t|
    ensures AtBound(t[..j]) == AtBound(t)
  {
    assert t[..j][0] == t[0];
  }

  lemma {:induction false} NextAfterEnd(w: World, r: Request, t: seq<Event>, j: nat)
    requires Legal(w, r, t) && j + 1 < |t| && (t[j].End? || t[j].Nudge?)
    ensures t[j].End? && t[j + 1].Nudge?
  {
    EachStepAllowed(w, r, t, j + 1);
    var before := t[..j + 1];
    assert before != [] && Last(before) == t[j];
    hide Legal, ReadReview, ReadResolve, MarkerOf, Runs, LastLeg, CurrentReviewPass, PassRead, Latest, AtBound;
  }

  /* ---- what a converged ending stands on ---- */

  /** What a run reports as converged after a review leg: its newest marker says so
      and kept its coverage promise, or left nothing to act on. */
  predicate ReviewSettles(p: Policy, s: State, pass: int) {
    var m := MarkerOf(s.markers, pass, Review);
    && m.verdict != "" && m.verdict != VERDICT_BLOCKED
    && if m.verdict == VERDICT_CONVERGED then MarkerConverges(m)
       else p.actionable(m.findings, s.minFix) == 0 && Escalated(p, s.markers) == 0
  }

  /** And after a resolve leg: the pass's review had completed with its coverage
      promise kept, and its resolve is complete, with no stop and nothing blocked. */
  predicate ResolveSettles(s: State, pass: int) {
    var review, resolve := MarkerFor(s.markers, pass, Review), MarkerFor(s.markers, pass, Resolve);
    && review.Some? && MarkerConverges(review.value) && review.value.verdict != VERDICT_BLOCKED
    && resolve.Some? && resolve.value.state.Complete? && !resolve.value.blocked && LABEL_STOP !in s.labels
  }

  lemma {:induction false} ReviewSettlesIs(p: Policy, s: State, pass: int)
    requires ReadReview(p, s, pass) == Finishes(ReportedConverged(pass))
    ensures ReviewSettles(p, s, pass)
  {
    hide Escalated, MarkerConverges, MarkerOf;
  }

  lemma {:induction false} EndAfterLoad(w: World, r: Request, t: seq<Event>, j: nat)
    requires Legal(w, r, t) && j < |t| && t[j].End?
    ensures 0 < j && t[j - 1].Load? && t[j - 1].state.Some? && Last(t[..j]) == t[j - 1]
    ensures EndAllowed(w, r, t[..j], t[j].ending)
  {
    EachStepAllowed(w, r, t, j);
    assert Loaded(t[..j]);
    LoadedBefore(t, j);
    hide Legal, EndAllowed;
  }

  /** The ending an event calls for, read off the last load, is converged only for
      the pass it names. */
  lemma {:induction false} ConvergedNames(w: World, r: Request, t: seq<Event>, pass: int)
    requires EndAllowed(w, r, t, ReportedConverged(pass))
    ensures Loaded(t)
    ensures LoadedAfter(t, Resolve) ==>
              ReadResolve(w.policy, Last(t).state.value, PassRead(t)) == Finishes(ReportedConverged(pass))
    ensures !LoadedAfter(t, Resolve) ==>
              ReadReview(w.policy, Last(t).state.value, PassOf(Last(t).state.value)) == Finishes(ReportedConverged(pass))
  {
    ReadingEndings(w.policy, Last(t).state.value, PassOf(Last(t).state.value));
    ReadingEndings(w.policy, Last(t).state.value, PassRead(t));
    hide ReadReview, ReadResolve, MarkerOf, Runs, LastLeg, CurrentReviewPass, CurrentPassComplete, PassRead;
  }

  lemma {:induction false} ResolvedPass(p: Policy, s: State, read: int, pass: int)
    requires ReadResolve(p, s, read) == Finishes(ReportedConverged(pass))
    ensures read == pass
  {
    hide MarkerFor, MarkerOf, Escalated, MarkerConverges;
  }

  lemma {:induction false} ReviewedPass(p: Policy, s: State, read: int, pass: int)
    requires ReadReview(p, s, read) == Finishes(ReportedConverged(pass))
    ensures read == pass
  {
    hide MarkerFor, MarkerOf, Escalated, MarkerConverges;
  }

  /** A run that ends converged stands on the state it loaded last: after a resolve
      leg, for the pass the review before it was read at, on a review and a resolve
      that settle it; otherwise on a review that does. */
  lemma {:induction false} ConvergedStandsOnTheState(w: World, r: Request, t: seq<Event>, j: nat)
    requires Legal(w, r, t) && j < |t| && t[j].End? && t[j].ending.ReportedConverged?
    ensures 0 < j && t[j - 1].Load? && t[j - 1].state.Some?
    ensures var s, pass := t[j - 1].state.value, t[j].ending.pass;
            if 1 < j && IsLeg(t[j - 2], Resolve) then pass == PassRead(t[..j]) && ResolveSettles(s, pass)
            else pass == PassOf(s) && ReviewSettles(w.policy, s, pass)
  {
    EndAfterLoad(w, r, t, j);
    var before, s, pass := t[..j], t[j - 1].state.value, t[j].ending.pass;
    ConvergedNames(w, r, before, pass);
    AfterResolve(t, j);
    hide Legal, EndAllowed, ReadReview, ReadResolve, PassRead, CurrentReviewPass, ResolveSettles, ReviewSettles, LoadedAfter;
    if LoadedAfter(before, Resolve) {
      ResolvedPass(w.policy, s, PassRead(before), pass);
      ResolveSettlesIs(w.policy, s, pass);
    } else {
      ReviewedPass(w.policy, s, PassOf(s), pass);
      ReviewSettlesIs(w.policy, s, pass);
    }
  }

  lemma {:induction false} ResolveSettlesIs(p: Policy, s: State, pass: int)
    requires ReadResolve(p, s, pass).Finishes?
    ensures ResolveSettles(s, pass)
  {
    ResolveConvergesOverReview(p, s, pass);
    hide ReadResolve, MarkerFor, MarkerConverges;
  }

  lemma {:induction false} AfterResolve(t: seq<Event>, j: nat)
    requires j <= |t| && Loaded(t[..j])
    ensures 0 < j && (LoadedAfter(t[..j], Resolve) <==> 1 < j && IsLeg(t[j - 2], Resolve))
  {
    if 1 < j {
      assert Front(t[..j]) == t[..j - 1] && Last(t[..j - 1]) == t[j - 2];
    } else {
      assert Front(t[..j]) == [];
    }
  }
}
