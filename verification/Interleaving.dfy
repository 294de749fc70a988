/**
 What every interleaving of sweeps and restarts does to one pull request, and
 exactly when it keeps the labels and the counts in order.
 */
module Interleaving {
  import opened Text
  import opened Passes
  import opened Labels
  import opened Watchdog
  import opened Restart

  /* ---- the protocol on one pull request ---- */

  /** One pull request's labels and how often its leg was re-fired, given up on
      and restarted. */
  datatype Loop = Loop(labels: seq<string>, retries: nat, halts: nat, restarts: nat)

  /** A restart carries the text of the leg read off the markers, which an open
      claim can leave out or spell as it likes. */
  datatype Step = Sweeps(draft: bool, stuck: bool) | Restarts(open: bool, ready: bool, leg: string)

  function RetryLabels(labels: seq<string>, leg: Leg): seq<string> {
    var awaiting := WaitOf(leg);
    if RETRIED in labels then With(Without(labels, awaiting), HALTED)
    else With(Without(With(labels, RETRIED), awaiting), awaiting)
  }

  function RestartLabels(labels: seq<string>, leg: string): seq<string> {
    var awaiting := AwaitingLabel(leg);
    var added := With(if awaiting in labels then Without(labels, awaiting) else labels, awaiting);
    if RETRIED in labels then Without(Without(added, HALTED), RETRIED) else Without(added, HALTED)
  }

  function SweepStep(l: Loop, draft: bool, stuck: bool): Loop {
    if !Listed(l.labels) || STOP in l.labels || draft || !stuck then l
    else
      var labels := RetryLabels(l.labels, LegWaitedFor(l.labels));
      if RETRIED in l.labels then l.(labels := labels, halts := l.halts + 1) else l.(labels := labels, retries := l.retries + 1)
  }

  function RestartStep(l: Loop, open: bool, ready: bool, leg: string): Loop {
    if !open || STOP in l.labels || HALTED !in l.labels || !ready then l
    else l.(labels := RestartLabels(l.labels, leg), restarts := l.restarts + 1)
  }

  function Next(l: Loop, step: Step): Loop {
    match step
    case Sweeps(draft, stuck) => SweepStep(l, draft, stuck)
    case Restarts(open, ready, leg) => RestartStep(l, open, ready, leg)
  }

  function After(l: Loop, steps: seq<Step>): Loop {
    if steps == [] then l else Next(After(l, steps[..|steps| - 1]), steps[|steps| - 1])
  }

  /** On a forge that refuses nothing, the step is what the sweep does to a pull
      request it was handed. */
  lemma {:induction false} SweepStepIs(f: Refuses, c: Clock, before: Sweep, pr: int, draft: bool, l: Loop)
    requires AcceptsAll(f) && !before.stopped && !MeetsTimeout(c, pr)
    requires l.labels == LabelsOf(before.store, pr) && Listed(l.labels)
    ensures var after := SweepOne(f, c, before, Waiting(pr, l.labels, draft));
            var step := SweepStep(l, draft, Stuck(c, pr));
            && LabelsOf(after.store, pr) == step.labels && !after.stopped
            && after.summary.retried - before.summary.retried == step.retries - l.retries
            && after.summary.halted - before.summary.halted == step.halts - l.halts
  {
    RetryIs(f, before.store, pr, LegWaitedFor(l.labels));
    hide Retry, RetryLabels, LabelsOf, LegWaitedFor, Stuck, Listed;
  }

  lemma {:induction false} AttemptIs(f: Refuses, s: Store, w: Write)
    requires AcceptsAll(f)
    ensures Accepted(f, s, w)
    ensures LabelsOf(Attempt(f, s, w), w.pr) ==
            match w
            case Add(pr, name) => With(LabelsOf(s, pr), name)
            case Remove(pr, name) => Without(LabelsOf(s, pr), name)
            case Comment(pr) => LabelsOf(s, pr)
  {
    hide With, Without;
  }

  lemma {:induction false} RetryIs(f: Refuses, s: Store, pr: int, leg: Leg)
    requires AcceptsAll(f)
    ensures var r := Retry(f, s, pr, LabelsOf(s, pr), leg);
            && LabelsOf(r.0, pr) == RetryLabels(LabelsOf(s, pr), leg)
            && r.1 == if RETRIED in LabelsOf(s, pr) then GaveUp else Refired
  {
    hide Attempt, Accepted, LabelsOf, With, Without;
    var awaiting := WaitOf(leg);
    var removed := Attempt(f, s, Remove(pr, awaiting));
    var marked := Attempt(f, s, Add(pr, RETRIED));
    AttemptIs(f, s, Remove(pr, awaiting));
    AttemptIs(f, removed, Add(pr, HALTED));
    AttemptIs(f, Attempt(f, removed, Add(pr, HALTED)), Comment(pr));
    AttemptIs(f, s, Add(pr, RETRIED));
    AttemptIs(f, marked, Remove(pr, awaiting));
    AttemptIs(f, Attempt(f, marked, Remove(pr, awaiting)), Add(pr, awaiting));
  }

  /** And the other step is what the restart command does. */
  lemma {:induction false} RestartStepIs(f: Refuses, s: Store, pr: int, open: bool, ready: bool, leg: string, l: Loop)
    requires AcceptsAll(f) && l.labels == LabelsOf(s, pr)
    ensures var r := RestartOne(f, s, pr, open, ready, leg);
            var step := RestartStep(l, open, ready, leg);
            && LabelsOf(r.0, pr) == step.labels
            && (r.1 == Restarted <==> step.restarts == l.restarts + 1)
  {
    hide Attempt, Accepted, LabelsOf, With, Without;
    var awaiting := AwaitingLabel(leg);
    var cleared := if awaiting in l.labels then Attempt(f, s, Remove(pr, awaiting)) else s;
    var added := Attempt(f, cleared, Add(pr, awaiting));
    AttemptIs(f, s, Remove(pr, awaiting));
    AttemptIs(f, cleared, Add(pr, awaiting));
    AttemptIs(f, added, Remove(pr, HALTED));
    AttemptIs(f, Attempt(f, added, Remove(pr, HALTED)), Remove(pr, RETRIED));
  }

  /* ---- the invariant ---- */

  /** Exactly one awaiting label and no halt. */
  predicate Waits(labels: seq<string>) {
    (AWAITING_REVIEW in labels) != (AWAITING_RESOLUTION in labels) && HALTED !in labels
  }

  /** A halt and no awaiting label. */
  predicate Rests(labels: seq<string>) {
    HALTED in labels && AWAITING_REVIEW !in labels && AWAITING_RESOLUTION !in labels
  }

  ghost predicate Sound(l: Loop) {
    && NoForeign(l.labels) && (Waits(l.labels) || Rests(l.labels))
    && (HALTED in l.labels ==> RETRIED in l.labels)
    && l.halts == l.restarts + (if HALTED in l.labels then 1 else 0)
    && l.retries == l.restarts + (if RETRIED in l.labels then 1 else 0)
  }

  lemma {:induction false} RetryHolds(labels: seq<string>, leg: Leg, k: string)
    ensures var awaiting := WaitOf(leg);
            k in RetryLabels(labels, leg) <==>
            if RETRIED in labels then k == HALTED || (k in labels && k != awaiting)
            else k == RETRIED || k == awaiting || k in labels
  {
    hide With, Without;
    var awaiting := WaitOf(leg);
    WithoutHolds(labels, awaiting, k);
    WithHolds(Without(labels, awaiting), HALTED, k);
    WithHolds(labels, RETRIED, k);
    WithoutHolds(With(labels, RETRIED), awaiting, k);
    WithHolds(Without(With(labels, RETRIED), awaiting), awaiting, k);
  }

  lemma {:induction false} RestartHolds(labels: seq<string>, leg: string, k: string)
    ensures var awaiting := AwaitingLabel(leg);
            k in RestartLabels(labels, leg) <==> k != HALTED && k != RETRIED && (k == awaiting || k in labels)
  {
    AwaitingIsOwn(leg);
    hide With, Without, AwaitingLabel, StartsWith;
    var awaiting := AwaitingLabel(leg);
    var cleared := if awaiting in labels then Without(labels, awaiting) else labels;
    WithoutHolds(labels, awaiting, k);
    WithHolds(cleared, awaiting, k);
    WithHolds(cleared, awaiting, RETRIED);
    WithoutHolds(With(cleared, awaiting), HALTED, k);
    WithoutHolds(Without(With(cleared, awaiting), HALTED), RETRIED, k);
  }

  lemma {:induction false} OwnLabels()
    ensures !Foreign(HALTED) && !Foreign(RETRIED) && !Foreign(AWAITING_REVIEW) && !Foreign(AWAITING_RESOLUTION)
    ensures !StartsWith(HALTED, AWAITING)
  {
    assert RETRIED[..|AWAITING|][9] == 'w' && AWAITING[9] == 'a';
  }

  lemma {:induction false} SweepKeepsSound(l: Loop, draft: bool, stuck: bool)
    requires Sound(l)
    ensures Sound(SweepStep(l, draft, stuck))
  {
    OwnLabels();
    LegWaitedForIs(l.labels);
    hide Foreign, StartsWith, LegWaitedFor;
    if Rests(l.labels) {
      RestsUnlisted(l.labels);
    } else {
      var leg := LegWaitedFor(l.labels);
      forall k ensures k in RetryLabels(l.labels, leg) <==>
          if RETRIED in l.labels then k == HALTED || (k in l.labels && k != WaitOf(leg))
          else k == RETRIED || k == WaitOf(leg) || k in l.labels
      {
        RetryHolds(l.labels, leg, k);
      }
      hide RetryLabels, Listed;
    }
  }

  lemma {:induction false} RestsUnlisted(labels: seq<string>)
    requires Rests(labels) && NoForeign(labels)
    ensures !Listed(labels)
  {
    hide StartsWith, Contains;
  }

  lemma {:induction false} RestartKeepsSound(l: Loop, open: bool, ready: bool, leg: string)
    requires Sound(l) && (PutsWait(leg) || !Takes(l, Restarts(open, ready, leg)))
    ensures Sound(RestartStep(l, open, ready, leg))
  {
    OwnLabels();
    hide Foreign;
    forall k ensures k in RestartLabels(l.labels, leg) <==>
        k != HALTED && k != RETRIED && (k == AwaitingLabel(leg) || k in l.labels)
    {
      RestartHolds(l.labels, leg, k);
    }
    hide RestartLabels;
  }

  /** One awaiting label and no halt, or a halt and no awaiting label; no more
      halts than retries and no more retries than one past the restarts. */
  predicate Kept(l: Loop) {
    (Waits(l.labels) || Rests(l.labels)) && l.halts <= l.retries <= l.restarts + 1
  }

  /** The step is a restart that gets past every refusal. */
  predicate Takes(l: Loop, step: Step) {
    step.Restarts? && step.open && step.ready && STOP !in l.labels && HALTED in l.labels
  }

  /** Every restart of the run that takes effect names a leg. */
  ghost predicate NamesLegs(l: Loop, steps: seq<Step>) {
    forall i :: 0 <= i < |steps| ==> NamesLeg(After(l, steps[..i]), steps[i])
  }

  predicate NamesLeg(l: Loop, step: Step) { Takes(l, step) ==> PutsWait(step.leg) }

  function Start(labels: seq<string>): Loop { Loop(labels, 0, 0, 0) }

  lemma {:induction false} StepKeepsSound(l: Loop, step: Step)
    requires Sound(l) && NamesLeg(l, step)
    ensures Sound(Next(l, step))
  {
    hide Sound, SweepStep, RestartStep;
    match step {
      case Sweeps(draft, stuck) => SweepKeepsSound(l, draft, stuck);
      case Restarts(open, ready, leg) => RestartKeepsSound(l, open, ready, leg);
    }
  }

  lemma {:induction false} RunStaysSound(labels: seq<string>, steps: seq<Step>)
    requires Waits(labels) && RETRIED !in labels && NoForeign(labels) && NamesLegs(Start(labels), steps)
    ensures Sound(After(Start(labels), steps))
  {
    hide Waits, Rests, NoForeign, NamesLeg, Next;
    if steps == [] {
      WaitsUnhalted(labels);
    } else {
      var front, last := steps[..|steps| - 1], steps[|steps| - 1];
      assert NamesLeg(After(Start(labels), front), last);
      NamesLegsFront(Start(labels), steps, |steps| - 1);
      hide Sound, NamesLegs;
      RunStaysSound(labels, front);
      StepKeepsSound(After(Start(labels), front), last);
    }
  }

  lemma {:induction false} NamesLegsFront(l: Loop, steps: seq<Step>, n: nat)
    requires n <= |steps| && NamesLegs(l, steps)
    ensures NamesLegs(l, steps[..n])
  {
    hide NamesLeg, After;
    forall i | 0 <= i < n ensures NamesLeg(After(l, steps[..n][..i]), steps[..n][i]) {
      assert steps[..n][..i] == steps[..i];
    }
  }

  /** A restart whose leg spells no wait clears the halt and puts none back. */
  lemma {:induction false} LeglessRestartBreaks(l: Loop, step: Step)
    requires Kept(l) && Takes(l, step) && !PutsWait(step.leg)
    ensures !Kept(Next(l, step))
  {
    RestartHolds(l.labels, step.leg, AWAITING_REVIEW);
    RestartHolds(l.labels, step.leg, AWAITING_RESOLUTION);
    RestartHolds(l.labels, step.leg, HALTED);
    hide RestartLabels;
  }

  /** Of every interleaving of sweeps and restarts, from one awaiting label, no
      halt or retried label and no foreign one: one awaiting label and no halt,
      or a halt and no awaiting label, with halts <= retries <= restarts + 1, hold
      at every point exactly when every restart that takes effect names a leg. */
  lemma {:induction false} EveryInterleavingIsSound(labels: seq<string>, steps: seq<Step>)
    requires Waits(labels) && RETRIED !in labels && NoForeign(labels)
    ensures (forall n :: 0 <= n <= |steps| ==> Kept(After(Start(labels), steps[..n]))) <==> NamesLegs(Start(labels), steps)
  {
    hide Waits, NoForeign, NamesLegs, Kept, Takes;
    var start := Start(labels);
    if NamesLegs(start, steps) {
      forall n | 0 <= n <= |steps| ensures Kept(After(start, steps[..n])) {
        NamesLegsFront(start, steps, n);
        RunStaysSound(labels, steps[..n]);
        SoundCounts(After(start, steps[..n]));
      }
    } else if forall n :: 0 <= n <= |steps| ==> Kept(After(start, steps[..n])) {
      var i := LeglessAt(start, steps);
      StepsOn(start, steps, i);
      assert Kept(After(start, steps[..i])) && Kept(After(start, steps[..i + 1]));
      hide After, Next;
      LeglessRestartBreaks(After(start, steps[..i]), steps[i]);
    }
  }

  lemma {:induction false} LeglessAt(l: Loop, steps: seq<Step>) returns (i: nat)
    requires !NamesLegs(l, steps)
    ensures i < |steps| && Takes(After(l, steps[..i]), steps[i]) && !PutsWait(steps[i].leg)
  {
    hide After;
    i :| 0 <= i < |steps| && !NamesLeg(After(l, steps[..i]), steps[i]);
  }

  lemma {:induction false} StepsOn(l: Loop, steps: seq<Step>, i: nat)
    requires i < |steps|
    ensures After(l, steps[..i + 1]) == Next(After(l, steps[..i]), steps[i])
  {
    assert steps[..i + 1][..i] == steps[..i];
    hide Next;
  }

  lemma {:induction false} WaitsUnhalted(labels: seq<string>)
    requires Waits(labels)
    ensures HALTED !in labels
  {
  }

  lemma {:induction false} SoundCounts(l: Loop)
    requires Sound(l)
    ensures Kept(l)
  {
    hide Waits, Rests, NoForeign;
  }

  /** No sweep changes a halted pull request exactly when it is stopped or carries
      no label the list read selects it by. */
  lemma {:induction false} HaltedIsLeftAlone(l: Loop)
    requires Rests(l.labels)
    ensures (forall draft, stuck :: SweepStep(l, draft, stuck) == l) <==>
            STOP in l.labels || forall k :: k in l.labels ==> !StartsWith(k, AWAITING)
    ensures NoForeign(l.labels) ==> forall k :: k in l.labels ==> !StartsWith(k, AWAITING)
  {
    hide StartsWith, Contains, RetryLabels, LegWaitedFor;
    if Listed(l.labels) && STOP !in l.labels {
      assert SweepStep(l, false, true) != l;
    }
  }

  /* ---- where it can fail ---- */

  /** A team's own label that contains the wait's name makes the sweep re-fire
      the wrong leg, leaving two awaiting labels. */
  lemma {:induction false} ForeignLabelMisleads()
    ensures var labels := [AWAITING_REVIEW, "team/" + AWAITING_RESOLUTION];
            && Waits(labels) && RETRIED !in labels
            && var after := RetryLabels(labels, LegWaitedFor(labels));
               AWAITING_REVIEW in after && AWAITING_RESOLUTION in after
  {
    var foreign := "team/" + AWAITING_RESOLUTION;
    var labels := [AWAITING_REVIEW, foreign];
    ContainsItself(AWAITING_RESOLUTION);
    ContainsRight("team/", AWAITING_RESOLUTION, AWAITING_RESOLUTION);
    assert foreign in labels;
    assert |foreign| > |AWAITING_RESOLUTION| && foreign[0] == 't' && RETRIED[0] == 'c';
    LegWaitedForIs(labels);
    hide Contains, LegWaitedFor, RetryLabels;
    RetryHolds(labels, Resolve, AWAITING_REVIEW);
    RetryHolds(labels, Resolve, AWAITING_RESOLUTION);
  }

  /** A label the list read selects by is no better, though no label contains the
      wait's name: the halted pull request stays listed and is given up on again. */
  lemma {:induction false} PrefixLabelMiscounts()
    ensures var labels := [AWAITING_REVIEW, AWAITING + "x"];
            var l := After(Start(labels), [STUCK, STUCK, STUCK]);
            && Waits(labels) && RETRIED !in labels && (forall k :: k in labels ==> !Contains(k, AWAITING_RESOLUTION))
            && l.halts == 2 && l.retries == 1
  {
    var x := AWAITING + "x";
    var labels := [AWAITING_REVIEW, x];
    ReviewHoldsNoResolution();
    assert |x| == 19 && |AWAITING_REVIEW| == 24 && |AWAITING_RESOLUTION| == 28 && |RETRIED| == 25 && |HALTED| == 15;
    assert |STOP| == 13;
    assert x[..|AWAITING|] == AWAITING;
    assert RETRIED[9] == 'w' && AWAITING_REVIEW[9] == 'a';
    hide Contains, After;
    StaysListed(labels, x);
  }

  /** A sweep that finds the leg stuck. */
  const STUCK := Sweeps(false, true)

  lemma {:induction false} WaitsAreListed(labels: seq<string>)
    requires Waits(labels)
    ensures Listed(labels)
  {
    assert StartsWith(AWAITING_REVIEW, AWAITING) && StartsWith(AWAITING_RESOLUTION, AWAITING);
    hide StartsWith;
  }

  lemma {:induction false} ThreeSteps(l: Loop, a: Step, b: Step, c: Step)
    ensures After(l, [a]) == Next(l, a)
    ensures After(l, [a, b]) == Next(Next(l, a), b)
    ensures After(l, [a, b, c]) == Next(Next(Next(l, a), b), c)
  {
    hide Next;
    assert [a][..0] == [] && [a, b][..1] == [a] && [a, b, c][..2] == [a, b];
  }

  /** A foreign label is none of those a sweep or a restart moves. */
  lemma {:induction false} ForeignStays(labels: seq<string>, leg: Leg, x: string)
    requires Foreign(x) && x in labels
    ensures x in RetryLabels(labels, leg) && x in RestartLabels(RetryLabels(labels, leg), TextOf(leg))
  {
    OwnLabels();
    hide StartsWith, Contains;
    RetryHolds(labels, leg, x);
    RestartHolds(RetryLabels(labels, leg), TextOf(leg), x);
    hide RetryLabels, RestartLabels;
  }

  /** A waiting pull request the list read never lets go is halted twice on one
      retry. */
  lemma {:induction false} StaysListed(labels: seq<string>, x: string)
    requires Waits(labels) && RETRIED !in labels && STOP !in labels && x in labels
    requires StartsWith(x, AWAITING) && x != AWAITING_REVIEW && x != AWAITING_RESOLUTION
    ensures var l := After(Start(labels), [STUCK, STUCK, STUCK]);
            l.halts == 2 && l.retries == 1
  {
    ThreeSteps(Start(labels), STUCK, STUCK, STUCK);
    WaitsAreListed(labels);
    hide RetryLabels, LegWaitedFor, Waits, After, Foreign, StartsWith, Contains;
    assert Foreign(x) by { PrefixIsForeign(x); }
    var one := SweepStep(Start(labels), false, true);
    SweptOnce(Start(labels), x);
    var two := SweepStep(one, false, true);
    SweptOnce(one, x);
    SweptOnce(two, x);
  }

  lemma {:induction false} PrefixIsForeign(x: string)
    requires StartsWith(x, AWAITING) && x != AWAITING_REVIEW && x != AWAITING_RESOLUTION
    ensures Foreign(x)
  {
    hide Contains, StartsWith;
  }

  /** What a stuck sweep of a listed pull request leaves. */
  lemma {:induction false} SweptOnce(l: Loop, x: string)
    requires Listed(l.labels) && STOP !in l.labels && Foreign(x) && x in l.labels
    ensures var next := SweepStep(l, false, true);
            && x in next.labels && STOP !in next.labels && RETRIED in next.labels
            && (StartsWith(x, AWAITING) ==> Listed(next.labels))
            && (RETRIED in l.labels ==> next.halts == l.halts + 1 && next.retries == l.retries && HALTED in next.labels)
            && (RETRIED !in l.labels ==> next.halts == l.halts && next.retries == l.retries + 1)
  {
    var leg := LegWaitedFor(l.labels);
    ForeignStays(l.labels, leg, x);
    RetryHolds(l.labels, leg, STOP);
    RetryHolds(l.labels, leg, RETRIED);
    RetryHolds(l.labels, leg, HALTED);
    hide RetryLabels, RestartLabels, LegWaitedFor, StartsWith, Foreign, Contains;
  }

  /* ---- exactly when ---- */

  /** Where the labels are misread from the start: the wait is for review and some
      label contains the other wait's name. */
  lemma {:induction false} MisreadWait(l: Loop, x: string)
    requires Listed(l.labels) && STOP !in l.labels && HALTED !in l.labels && RETRIED !in l.labels
    requires AWAITING_REVIEW in l.labels && x in l.labels && Contains(x, AWAITING_RESOLUTION)
    ensures !Kept(SweepStep(l, false, true))
  {
    LegWaitedForIs(l.labels);
    hide Contains, LegWaitedFor, RetryLabels, Listed;
    assert LegWaitedFor(l.labels) == Resolve;
    RetryHolds(l.labels, Resolve, AWAITING_REVIEW);
    RetryHolds(l.labels, Resolve, AWAITING_RESOLUTION);
  }

  /** A run of named restarts and sweeps that a foreign label takes out of order. */
  lemma {:induction false} ForeignLabelBreaks(labels: seq<string>, x: string) returns (steps: seq<Step>)
    requires Waits(labels) && RETRIED !in labels && STOP !in labels && x in labels && Foreign(x)
    ensures NamesAll(steps) && !Kept(After(Start(labels), steps))
  {
    var start := Start(labels);
    WaitsAreListed(labels);
    if StartsWith(x, AWAITING) {
      StaysListed(labels, x);
      steps := [STUCK, STUCK, STUCK];
    } else if AWAITING_REVIEW in labels {
      ThreeSteps(start, STUCK, STUCK, STUCK);
      MisreadWait(start, x);
      steps := [STUCK];
    } else {
      steps := [STUCK, STUCK, Restarts(true, true, LEG_REVIEW), STUCK];
      MisreadLater(labels, x);
    }
  }

  /** Every restart of the run names a leg. */
  predicate NamesAll(steps: seq<Step>) {
    forall i :: 0 <= i < |steps| && steps[i].Restarts? ==> PutsWait(steps[i].leg)
  }

  /** The same once a restart has put the other wait back. */
  lemma {:induction false} MisreadLater(labels: seq<string>, x: string)
    requires Waits(labels) && AWAITING_REVIEW !in labels && RETRIED !in labels && STOP !in labels
    requires x in labels && Foreign(x) && Contains(x, AWAITING_RESOLUTION)
    ensures !Kept(After(Start(labels), [STUCK, STUCK, Restarts(true, true, LEG_REVIEW), STUCK]))
  {
    var restart := Restarts(true, true, LEG_REVIEW);
    var one := SweepStep(Start(labels), false, true);
    WaitsAreListed(labels);
    LegWaitedForIs(labels);
    hide Contains, StartsWith, LegWaitedFor, RetryLabels, RestartLabels, Foreign, After;
    SweptOnce(Start(labels), x);
    RetryHolds(labels, Resolve, AWAITING_RESOLUTION);
    assert Listed(one.labels) by { ResolutionListed(one.labels); }
    SweptOnce(one, x);
    var two := SweepStep(one, false, true);
    var three := RestartStep(two, true, true, LEG_REVIEW);
    RestartedForReview(two, x);
    MisreadWait(three, x);
    FourSteps(Start(labels), STUCK, STUCK, restart, STUCK);
  }

  lemma {:induction false} ResolutionListed(labels: seq<string>)
    requires AWAITING_RESOLUTION in labels
    ensures Listed(labels)
  {
    assert StartsWith(AWAITING_RESOLUTION, AWAITING);
    hide StartsWith;
  }

  lemma {:induction false} RestartedForReview(l: Loop, x: string)
    requires STOP !in l.labels && HALTED in l.labels && x in l.labels && Foreign(x)
    ensures var next := RestartStep(l, true, true, LEG_REVIEW);
            && Listed(next.labels) && STOP !in next.labels && HALTED !in next.labels && RETRIED !in next.labels
            && AWAITING_REVIEW in next.labels && x in next.labels
  {
    OwnLabels();
    assert StartsWith(AWAITING_REVIEW, AWAITING);
    hide StartsWith, Contains, RestartLabels;
    RestartHolds(l.labels, LEG_REVIEW, x);
    RestartHolds(l.labels, LEG_REVIEW, STOP);
    RestartHolds(l.labels, LEG_REVIEW, HALTED);
    RestartHolds(l.labels, LEG_REVIEW, RETRIED);
    RestartHolds(l.labels, LEG_REVIEW, AWAITING_REVIEW);
  }

  lemma {:induction false} FourSteps(l: Loop, a: Step, b: Step, c: Step, d: Step)
    ensures After(l, [a, b, c, d]) == Next(Next(Next(Next(l, a), b), c), d)
  {
    ThreeSteps(l, a, b, c);
    hide Next;
    assert [a, b, c, d][..3] == [a, b, c];
  }

  /** Nothing moves a stopped pull request. */
  lemma {:induction false} StoppedStays(l: Loop, steps: seq<Step>)
    requires STOP in l.labels
    ensures After(l, steps) == l
  {
    if steps != [] {
      StoppedStays(l, steps[..|steps| - 1]);
    }
  }

  lemma {:induction false} NamedRunsAreKept(labels: seq<string>, steps: seq<Step>)
    requires Waits(labels) && RETRIED !in labels && NoForeign(labels) && NamesAll(steps)
    ensures Kept(After(Start(labels), steps))
  {
    hide Waits, NoForeign, Kept, After;
    assert NamesLegs(Start(labels), steps);
    hide NamesLegs;
    EveryInterleavingIsSound(labels, steps);
    assert Kept(After(Start(labels), steps[..|steps|]));
    assert steps[..|steps|] == steps;
  }

  /** Whatever sweeps and restarts come, in any order, the labels and the counts
      of a waiting pull request stay in order exactly when it is stopped or carries
      no foreign label, as long as every restart names a leg. */
  lemma {:induction false} KeptExactlyWhen(labels: seq<string>)
    requires Waits(labels) && RETRIED !in labels
    ensures (forall steps :: NamesAll(steps) ==> Kept(After(Start(labels), steps))) <==>
            STOP in labels || NoForeign(labels)
  {
    hide Waits, Kept, NamesAll, After, Foreign;
    if STOP in labels {
      forall steps ensures Kept(After(Start(labels), steps)) {
        StoppedStays(Start(labels), steps);
        StartIsKept(labels);
      }
    } else if NoForeign(labels) {
      forall steps | NamesAll(steps) ensures Kept(After(Start(labels), steps)) {
        NamedRunsAreKept(labels, steps);
      }
    } else {
      var x :| x in labels && Foreign(x);
      var steps := ForeignLabelBreaks(labels, x);
    }
  }

  lemma {:induction false} StartIsKept(labels: seq<string>)
    requires Waits(labels)
    ensures Kept(Start(labels))
  {
  }

  /** And with restarts that may name none, exactly when it is stopped: two stuck
      sweeps halt it, and one such restart clears the halt for good. */
  lemma {:induction false} KeptUnnamedExactlyWhen(labels: seq<string>)
    requires Waits(labels) && RETRIED !in labels
    ensures (forall steps :: Kept(After(Start(labels), steps))) <==> STOP in labels
  {
    hide Waits, Kept, After, Foreign;
    if STOP in labels {
      forall steps ensures Kept(After(Start(labels), steps)) {
        StoppedStays(Start(labels), steps);
        StartIsKept(labels);
      }
    } else if NoForeign(labels) {
      LeglessRunBreaks(labels);
    } else {
      var x :| x in labels && Foreign(x);
      var steps := ForeignLabelBreaks(labels, x);
    }
  }

  lemma {:induction false} LeglessRunBreaks(labels: seq<string>)
    requires Waits(labels) && RETRIED !in labels && STOP !in labels && NoForeign(labels)
    ensures !Kept(After(Start(labels), [STUCK, STUCK, Restarts(true, true, "")]))
  {
    var restart := Restarts(true, true, "");
    var start := Start(labels);
    assert Sound(start);
    WaitsAreListed(labels);
    SweepKeepsSound(start, false, true);
    var one := SweepStep(start, false, true);
    StillWaits(start);
    SweepKeepsSound(one, false, true);
    var two := SweepStep(one, false, true);
    StillWaits(one);
    ThreeSteps(start, STUCK, STUCK, restart);
    hide Sound, RetryLabels, LegWaitedFor, NoForeign, After;
    SoundCounts(two);
    LeglessRestartBreaks(two, restart);
  }

  lemma {:induction false} StillWaits(l: Loop)
    requires Sound(l) && Waits(l.labels) && STOP !in l.labels
    ensures var next := SweepStep(l, false, true);
            && STOP !in next.labels
            && (RETRIED !in l.labels ==> Waits(next.labels) && RETRIED in next.labels)
            && (RETRIED in l.labels ==> HALTED in next.labels)
  {
    WaitsAreListed(l.labels);
    SweepKeepsSound(l, false, true);
    var leg := LegWaitedFor(l.labels);
    RetryHolds(l.labels, leg, STOP);
    RetryHolds(l.labels, leg, HALTED);
    RetryHolds(l.labels, leg, RETRIED);
    hide RetryLabels, LegWaitedFor, NoForeign;
  }

  /** The case itself: a restart of a halted pull request that names no leg answers
      that it restarted, leaving neither a wait nor a halt. */
  lemma {:induction false} LeglessRestartStrands(f: Refuses, s: Store, pr: int)
    requires AcceptsAll(f) && LabelsOf(s, pr) == [RETRIED, HALTED]
    ensures var r := RestartOne(f, s, pr, true, true, "");
            r.1 == Restarted && LabelsOf(r.0, pr) == [AWAITING] && !Waits([AWAITING]) && !Rests([AWAITING])
  {
    var l := Loop([RETRIED, HALTED], 1, 1, 0);
    RestartStepIs(f, s, pr, true, true, "", l);
    assert |AWAITING| == 18 && |HALTED| == 15 && |RETRIED| == 25 && |STOP| == 13;
    LeglessLabels();
    hide RestartOne, LabelsOf, RestartLabels;
    assert STOP !in l.labels && HALTED in l.labels;
    assert AWAITING_REVIEW !in [AWAITING] && AWAITING_RESOLUTION !in [AWAITING] && HALTED !in [AWAITING];
  }

  lemma {:induction false} LeglessLabels()
    ensures RestartLabels([RETRIED, HALTED], "") == [AWAITING]
    ensures AWAITING != AWAITING_REVIEW && AWAITING != AWAITING_RESOLUTION && AWAITING != HALTED
    ensures STOP !in [RETRIED, HALTED]
  {
    assert |AWAITING| == 18 && |HALTED| == 15 && |RETRIED| == 25 && |STOP| == 13;
    assert |AWAITING_REVIEW| == 24 && |AWAITING_RESOLUTION| == 28;
    assert AwaitingLabel("") == AWAITING by { assert AWAITING + "" == AWAITING; }
    var added := [RETRIED, HALTED, AWAITING];
    assert With([RETRIED, HALTED], AWAITING) == added;
    DropOne(AWAITING, HALTED);
    DropOne(AWAITING, RETRIED);
    assert added[1..] == [HALTED, AWAITING] && [HALTED, AWAITING][1..] == [AWAITING] && [RETRIED, AWAITING][1..] == [AWAITING];
    assert Without([HALTED, AWAITING], HALTED) == [AWAITING];
    assert Without(added, HALTED) == [RETRIED] + [AWAITING] == [RETRIED, AWAITING];
    assert Without([RETRIED, AWAITING], RETRIED) == [AWAITING];
  }

  lemma {:induction false} DropOne(kept: string, dropped: string)
    requires kept != dropped
    ensures Without([kept], dropped) == [kept]
  {
    assert [kept][1..] == [];
  }

  /* ---- a halt and the restart that answers it ---- */

  /** Restarting the leg a sweep gave up on puts back the labels the sweep found,
      without its own mark. */
  lemma {:induction false} RestartUndoesHalt(labels: seq<string>, leg: Leg, k: string)
    requires Waits(labels) && RETRIED in labels && WaitOf(leg) in labels
    ensures k in RestartLabels(RetryLabels(labels, leg), TextOf(leg)) <==> k in labels && k != RETRIED
  {
    RetryHolds(labels, leg, k);
    RestartHolds(RetryLabels(labels, leg), TextOf(leg), k);
    hide RetryLabels, RestartLabels;
  }
}
