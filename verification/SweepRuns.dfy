/**
 Whole runs over a forge: sweeps over the lists they are handed and restarts of
 single pull requests, told for each pull request by its labels and by the
 writes the forge's log records about it.
 */
module SweepRuns {
  import opened Text
  import opened Passes
  import opened Labels
  import opened Watchdog
  import opened Restart
  import opened Interleaving

  datatype Act = Swept(c: Clock, waiting: seq<Waiting>) | Asked(pr: int, open: bool, ready: bool, leg: string)

  function Started(s: Store): Sweep { Sweep(Summary(0, 0, 0, 0), s, false) }

  function Done(f: Refuses, s: Store, a: Act): Store {
    match a
    case Swept(c, waiting) => SweepAll(f, c, Started(s), waiting).store
    case Asked(pr, open, ready, leg) => RestartOne(f, s, pr, open, ready, leg).0
  }

  function AllDone(f: Refuses, s: Store, acts: seq<Act>): Store {
    if acts == [] then s else Done(f, AllDone(f, s, acts[..|acts| - 1]), acts[|acts| - 1])
  }

  /** The list a sweep is handed: each pull request once, with the labels it
      carries, and only those the list read selects. */
  ghost predicate Handed(s: Store, waiting: seq<Waiting>) {
    && (forall i, j :: 0 <= i < j < |waiting| ==> waiting[i].pr != waiting[j].pr)
    && (forall w :: w in waiting ==> w.labels == LabelsOf(s, w.pr) && Listed(w.labels))
  }

  ghost predicate HandedAt(f: Refuses, s: Store, acts: seq<Act>, i: nat)
    requires i < |acts|
  {
    acts[i].Swept? ==> Handed(AllDone(f, s, acts[..i]), acts[i].waiting)
  }

  ghost predicate Possible(f: Refuses, s: Store, acts: seq<Act>) {
    forall i :: 0 <= i < |acts| ==> HandedAt(f, s, acts, i)
  }

  /* ---- one pull request, off the log ---- */

  ghost function Logged(s: Store, w: Write): nat { multiset(s.log)[w] }

  /** The labels of a pull request, and how often the forge was asked to mark it
      retried, to halt it and to take the halt off. */
  ghost function LoopOf(s: Store, pr: int): Loop {
    Loop(LabelsOf(s, pr), Logged(s, Add(pr, RETRIED)), Logged(s, Add(pr, HALTED)), Logged(s, Remove(pr, HALTED)))
  }

  lemma {:induction false} AttemptLogged(f: Refuses, s: Store, w: Write, x: Write)
    ensures Logged(Attempt(f, s, w), x) == Logged(s, x) + if w == x then 1 else 0
  {
    AttemptLogs(f, s, w);
    hide Attempt;
    assert multiset(s.log + [w]) == multiset(s.log) + multiset{w};
  }

  /** What one write the forge accepts does to a pull request's account. */
  function Wrote(l: Loop, labels: seq<string>, w: Write): Loop {
    Loop(labels,
      l.retries + (if w == Add(w.pr, RETRIED) then 1 else 0),
      l.halts + (if w == Add(w.pr, HALTED) then 1 else 0),
      l.restarts + (if w == Remove(w.pr, HALTED) then 1 else 0))
  }

  lemma {:induction false} AttemptLoop(f: Refuses, s: Store, w: Write, q: int)
    ensures LoopOf(Attempt(f, s, w), q) == if w.pr == q then Wrote(LoopOf(s, q), LabelsOf(Attempt(f, s, w), q), w) else LoopOf(s, q)
  {
    AttemptLogged(f, s, w, Add(q, RETRIED));
    AttemptLogged(f, s, w, Add(q, HALTED));
    AttemptLogged(f, s, w, Remove(q, HALTED));
    hide Logged, With, Without;
  }

  lemma {:induction false} ThreeLoops(f: Refuses, s: Store, a: Write, b: Write, c: Write, q: int)
    requires a.pr == b.pr == c.pr
    ensures var after := Attempt(f, Attempt(f, Attempt(f, s, a), b), c);
            LoopOf(after, q) ==
            if a.pr == q then Wrote(Wrote(Wrote(LoopOf(s, q), [], a), [], b), LabelsOf(after, q), c) else LoopOf(s, q)
  {
    AttemptLoop(f, s, a, q);
    AttemptLoop(f, Attempt(f, s, a), b, q);
    AttemptLoop(f, Attempt(f, Attempt(f, s, a), b), c, q);
    hide Attempt, LoopOf;
  }

  lemma {:induction false} OwnMarks(leg: string)
    ensures HALTED != RETRIED && AwaitingLabel(leg) != HALTED && AwaitingLabel(leg) != RETRIED
    ensures forall l: Leg :: WaitOf(l) != HALTED && WaitOf(l) != RETRIED
  {
    AwaitingIsOwn(leg);
    AwaitingIsOwn(LEG_REVIEW);
    AwaitingIsOwn(LEG_RESOLVE);
    LegsWait(Review);
    LegsWait(Resolve);
    assert |HALTED| == 15 && |RETRIED| == 25;
    hide AwaitingLabel, StartsWith;
  }

  /* ---- a sweep ---- */

  lemma {:induction false} HaltWrote(l: Loop, pr: int, awaiting: string, labels: seq<string>)
    requires awaiting != HALTED && awaiting != RETRIED && HALTED != RETRIED
    ensures Wrote(Wrote(Wrote(l, [], Remove(pr, awaiting)), [], Add(pr, HALTED)), labels, Comment(pr))
         == l.(labels := labels, halts := l.halts + 1)
    ensures Wrote(Wrote(Wrote(l, [], Add(pr, RETRIED)), [], Remove(pr, awaiting)), labels, Add(pr, awaiting))
         == l.(labels := labels, retries := l.retries + 1)
  {
  }

  lemma {:induction false} RetryWrites(f: Refuses, s: Store, pr: int, leg: Leg)
    requires AcceptsAll(f)
    ensures var awaiting := WaitOf(leg);
            Retry(f, s, pr, LabelsOf(s, pr), leg).0 ==
            if RETRIED in LabelsOf(s, pr)
            then Attempt(f, Attempt(f, Attempt(f, s, Remove(pr, awaiting)), Add(pr, HALTED)), Comment(pr))
            else Attempt(f, Attempt(f, Attempt(f, s, Add(pr, RETRIED)), Remove(pr, awaiting)), Add(pr, awaiting))
  {
    hide Attempt, LabelsOf, WaitOf;
  }

  lemma {:induction false} RetryLoop(f: Refuses, s: Store, pr: int, leg: Leg, q: int)
    requires AcceptsAll(f)
    ensures var l := LoopOf(s, q);
            LoopOf(Retry(f, s, pr, LabelsOf(s, pr), leg).0, q) ==
            if q != pr then l
            else if RETRIED in l.labels then l.(labels := RetryLabels(l.labels, leg), halts := l.halts + 1)
            else l.(labels := RetryLabels(l.labels, leg), retries := l.retries + 1)
  {
    LabelsOfLoop(s, q);
    hide *;
    RetryIs(f, s, pr, leg);
    RetryWrites(f, s, pr, leg);
    OwnMarks("");
    var awaiting := WaitOf(leg);
    var after := Retry(f, s, pr, LabelsOf(s, pr), leg).0;
    ThreeLoops(f, s, Remove(pr, awaiting), Add(pr, HALTED), Comment(pr), q);
    ThreeLoops(f, s, Add(pr, RETRIED), Remove(pr, awaiting), Add(pr, awaiting), q);
    HaltWrote(LoopOf(s, q), pr, awaiting, LabelsOf(after, q));
  }

  lemma {:induction false} LabelsOfLoop(s: Store, q: int)
    ensures LoopOf(s, q).labels == LabelsOf(s, q)
  {
  }

  /** Whether a sweep gets to the entry's leg and finds it stuck. */
  predicate FindsStuck(c: Clock, before: Sweep, pr: int) { !before.stopped && !MeetsTimeout(c, pr) && Stuck(c, pr) }

  lemma {:induction false} SweepOneStore(f: Refuses, c: Clock, before: Sweep, w: Waiting)
    ensures SweepOne(f, c, before, w).store ==
            if STOP in w.labels || w.draft || !FindsStuck(c, before, w.pr) then before.store
            else Retry(f, before.store, w.pr, w.labels, LegWaitedFor(w.labels)).0
  {
    hide Retry, LegWaitedFor, Stuck, MeetsTimeout;
  }

  /** One entry of a sweep, for any pull request. */
  lemma {:induction false} SweptOne(f: Refuses, c: Clock, before: Sweep, w: Waiting, q: int)
    requires AcceptsAll(f) && w.labels == LabelsOf(before.store, w.pr) && Listed(w.labels)
    ensures LoopOf(SweepOne(f, c, before, w).store, q) ==
            if w.pr == q then SweepStep(LoopOf(before.store, q), w.draft, FindsStuck(c, before, q)) else LoopOf(before.store, q)
  {
    hide Retry, RetryLabels, LoopOf, LabelsOf, LegWaitedFor, FindsStuck, Listed, SweepOne;
    SweepOneStore(f, c, before, w);
    RetryLoop(f, before.store, w.pr, LegWaitedFor(w.labels), q);
    LabelsOfLoop(before.store, w.pr);
  }

  /** A whole sweep: a pull request it was handed takes one step of the protocol,
      and any other none. */
  lemma {:induction false} SweptAll(f: Refuses, c: Clock, before: Sweep, waiting: seq<Waiting>, q: int) returns (step: Step)
    requires AcceptsAll(f) && Handed(before.store, waiting)
    ensures step.Sweeps? && LoopOf(SweepAll(f, c, before, waiting).store, q) == Next(LoopOf(before.store, q), step)
    ensures (forall w :: w in waiting ==> w.pr != q) ==> LoopOf(SweepAll(f, c, before, waiting).store, q) == LoopOf(before.store, q)
  {
    step := Sweeps(false, false);
    if waiting != [] {
      var front, w := waiting[..|waiting| - 1], waiting[|waiting| - 1];
      var middle := SweepAll(f, c, before, front);
      HandedFront(before.store, front, w, waiting);
      hide SweepOne, Handed, LoopOf, SweepStep, FindsStuck;
      var own := SweptAll(f, c, before, front, w.pr);
      assert w.labels == LabelsOf(middle.store, w.pr) by { SameLabels(middle.store, before.store, w.pr); }
      SweptOne(f, c, middle, w, q);
      if w.pr == q {
        step := Sweeps(w.draft, FindsStuck(c, middle, q));
      } else {
        step := SweptAll(f, c, before, front, q);
      }
    }
  }

  lemma {:induction false} SameLabels(a: Store, b: Store, pr: int)
    requires LoopOf(a, pr) == LoopOf(b, pr)
    ensures LabelsOf(a, pr) == LabelsOf(b, pr)
  {
  }

  lemma {:induction false} HandedFront(s: Store, front: seq<Waiting>, w: Waiting, waiting: seq<Waiting>)
    requires waiting == front + [w] && Handed(s, waiting)
    ensures Handed(s, front) && w.labels == LabelsOf(s, w.pr) && Listed(w.labels)
    ensures forall v :: v in front ==> v.pr != w.pr && v in waiting
  {
    hide LabelsOf, Listed;
    assert waiting[|front|] == w && forall i :: 0 <= i < |front| ==> waiting[i] == front[i];
    assert w in waiting;
  }

  /* ---- a restart ---- */

  /** The writes of a restart that gets past every refusal. */
  function Restarting(f: Refuses, s: Store, pr: int, awaiting: string): Store {
    var cleared := if awaiting in LabelsOf(s, pr) then Attempt(f, s, Remove(pr, awaiting)) else s;
    Unhalted(f, Attempt(f, cleared, Add(pr, awaiting)), pr, RETRIED in LabelsOf(s, pr))
  }

  function Unhalted(f: Refuses, s: Store, pr: int, retried: bool): Store {
    var running := Attempt(f, s, Remove(pr, HALTED));
    if retried then Attempt(f, running, Remove(pr, RETRIED)) else running
  }

  lemma {:induction false} RestartWrites(f: Refuses, s: Store, pr: int, open: bool, ready: bool, leg: string)
    requires AcceptsAll(f)
    ensures RestartOne(f, s, pr, open, ready, leg).0 ==
            if !open || STOP in LabelsOf(s, pr) || HALTED !in LabelsOf(s, pr) || !ready then s
            else Restarting(f, s, pr, AwaitingLabel(leg))
  {
    hide Attempt, LabelsOf, AwaitingLabel;
  }

  /** The counts of an account without its labels. */
  function Counts(l: Loop): Loop { l.(labels := []) }

  lemma {:induction false} PlainLoop(f: Refuses, s: Store, w: Write, q: int)
    requires w != Add(w.pr, RETRIED) && w != Add(w.pr, HALTED) && w != Remove(w.pr, HALTED)
    ensures Counts(LoopOf(Attempt(f, s, w), q)) == Counts(LoopOf(s, q))
    ensures w.pr != q ==> LoopOf(Attempt(f, s, w), q) == LoopOf(s, q)
  {
    AttemptLoop(f, s, w, q);
    hide Attempt, LoopOf;
  }

  lemma {:induction false} UnhaltedLoop(f: Refuses, s: Store, pr: int, retried: bool, q: int)
    requires HALTED != RETRIED
    ensures var before, after := LoopOf(s, q), LoopOf(Unhalted(f, s, pr, retried), q);
            if q == pr then Counts(after) == Counts(before).(restarts := before.restarts + 1) else after == before
  {
    AttemptLoop(f, s, Remove(pr, HALTED), q);
    PlainLoop(f, Attempt(f, s, Remove(pr, HALTED)), Remove(pr, RETRIED), q);
    hide Attempt, LoopOf;
  }

  lemma {:induction false} RestartingLoop(f: Refuses, s: Store, pr: int, awaiting: string, q: int)
    requires awaiting != HALTED && awaiting != RETRIED && HALTED != RETRIED
    ensures var before, after := LoopOf(s, q), LoopOf(Restarting(f, s, pr, awaiting), q);
            if q == pr then Counts(after) == Counts(before).(restarts := before.restarts + 1) else after == before
  {
    var cleared := if awaiting in LabelsOf(s, pr) then Attempt(f, s, Remove(pr, awaiting)) else s;
    hide LoopOf, Attempt, LabelsOf, Unhalted;
    PlainLoop(f, s, Remove(pr, awaiting), q);
    PlainLoop(f, cleared, Add(pr, awaiting), q);
    UnhaltedLoop(f, Attempt(f, cleared, Add(pr, awaiting)), pr, RETRIED in LabelsOf(s, pr), q);
  }

  lemma {:induction false} AskedLoop(f: Refuses, s: Store, pr: int, open: bool, ready: bool, leg: string, q: int)
    requires AcceptsAll(f)
    ensures LoopOf(RestartOne(f, s, pr, open, ready, leg).0, q) ==
            if q == pr then RestartStep(LoopOf(s, q), open, ready, leg) else LoopOf(s, q)
  {
    LabelsOfLoop(s, pr);
    LabelsOfLoop(RestartOne(f, s, pr, open, ready, leg).0, pr);
    hide LoopOf, RestartOne, RestartLabels, Restarting, LabelsOf, AwaitingLabel;
    RestartStepIs(f, s, pr, open, ready, leg, LoopOf(s, pr));
    RestartWrites(f, s, pr, open, ready, leg);
    OwnMarks(leg);
    RestartingLoop(f, s, pr, AwaitingLabel(leg), q);
  }

  /* ---- runs ---- */

  /** The act is a restart of the pull request. */
  predicate Asks(a: Act, q: int) { a.Asked? && a.pr == q }

  /** A clock under which a pull request without a marker is stuck. */
  const SILENT := Clock(0, 0, false, _ => [])

  /** Seen from the pull request, the act is the step. */
  predicate Mirrors(a: Act, step: Step, q: int) {
    if Asks(a, q) then step == Restarts(a.open, a.ready, a.leg) else step.Sweeps?
  }

  ghost predicate MirrorAll(acts: seq<Act>, steps: seq<Step>, q: int) {
    |acts| == |steps| && forall i :: 0 <= i < |acts| ==> Mirrors(acts[i], steps[i], q)
  }

  lemma {:induction false} MirrorSnoc(acts: seq<Act>, steps: seq<Step>, a: Act, step: Step, q: int)
    requires MirrorAll(acts, steps, q) && Mirrors(a, step, q)
    ensures MirrorAll(acts + [a], steps + [step], q)
  {
    hide Mirrors;
  }

  lemma {:induction false} Onto(f: Refuses, s: Store, acts: seq<Act>, a: Act, l: Loop, steps: seq<Step>, step: Step)
    ensures AllDone(f, s, acts + [a]) == Done(f, AllDone(f, s, acts), a)
    ensures After(l, steps + [step]) == Next(After(l, steps), step)
    ensures AllDone(f, s, []) == s && After(l, []) == l && Possible(f, s, [])
  {
    hide Done, Next;
    assert (acts + [a])[..|acts|] == acts && (steps + [step])[..|steps|] == steps;
  }

  /** What an act does to one pull request is a step of the protocol. */
  lemma {:induction false} ActIsStep(f: Refuses, s: Store, a: Act, q: int) returns (step: Step)
    requires AcceptsAll(f) && (a.Swept? ==> Handed(s, a.waiting))
    ensures LoopOf(Done(f, s, a), q) == Next(LoopOf(s, q), step) && Mirrors(a, step, q)
  {
    hide LoopOf, Handed, RestartOne, SweepAll, RestartStep;
    match a {
      case Swept(c, waiting) => step := SweptAll(f, c, Started(s), waiting, q);
      case Asked(pr, open, ready, leg) =>
        AskedLoop(f, s, pr, open, ready, leg, q);
        step := if pr == q then Restarts(open, ready, leg) else Sweeps(false, false);
    }
  }

  /** Every run, seen from one pull request, is an interleaving of the protocol. */
  lemma {:induction false} RunIsInterleaving(f: Refuses, s: Store, acts: seq<Act>, q: int) returns (steps: seq<Step>)
    requires AcceptsAll(f) && Possible(f, s, acts)
    ensures LoopOf(AllDone(f, s, acts), q) == After(LoopOf(s, q), steps) && MirrorAll(acts, steps, q)
  {
    hide Done, LoopOf, Next, Handed, Possible, AllDone, After, Mirrors;
    Onto(f, s, [], Swept(SILENT, []), LoopOf(s, q), [], Sweeps(false, false));
    if acts == [] {
      steps := [];
    } else {
      var front, last := acts[..|acts| - 1], acts[|acts| - 1];
      assert front + [last] == acts;
      hide MirrorAll;
      PossibleFront(f, s, front, last, acts);
      var before := RunIsInterleaving(f, s, front, q);
      var step := ActIsStep(f, AllDone(f, s, front), last, q);
      Onto(f, s, front, last, LoopOf(s, q), before, step);
      MirrorSnoc(front, before, last, step, q);
      steps := before + [step];
    }
  }

  lemma {:induction false} PossibleFront(f: Refuses, s: Store, front: seq<Act>, last: Act, acts: seq<Act>)
    requires acts == front + [last]
    ensures Possible(f, s, acts) <==>
            Possible(f, s, front) && (last.Swept? ==> Handed(AllDone(f, s, front), last.waiting))
  {
    hide AllDone, Handed;
    forall i | 0 <= i < |front| ensures HandedAt(f, s, acts, i) <==> HandedAt(f, s, front, i) {
      assert acts[..i] == front[..i];
    }
    assert acts[..|front|] == front;
    assert HandedAt(f, s, acts, |front|) <==> (last.Swept? ==> Handed(AllDone(f, s, front), last.waiting));
    hide HandedAt;
  }

  /** And every step of the protocol is what some act does. */
  lemma {:induction false} StepIsAct(f: Refuses, s: Store, step: Step, q: int) returns (a: Act)
    requires AcceptsAll(f)
    ensures a.Swept? ==> Handed(s, a.waiting)
    ensures LoopOf(Done(f, s, a), q) == Next(LoopOf(s, q), step) && Mirrors(a, step, q)
  {
    match step {
      case Restarts(open, ready, leg) =>
        a := Asked(q, open, ready, leg);
        AskedLoop(f, s, q, open, ready, leg, q);
        hide RestartOne, LoopOf, RestartStep;
      case Sweeps(draft, stuck) =>
        if stuck && Listed(LabelsOf(s, q)) {
          var w := Waiting(q, LabelsOf(s, q), draft);
          a := Swept(SILENT, [w]);
          SweptOne(f, SILENT, Started(s), w, q);
          OneEntry(f, Started(s), w);
          hide SweepAll, SweepOne, SweepStep, FindsStuck, Listed, Logged;
        } else {
          a := Swept(SILENT, []);
          hide SweepOne, Listed, Logged;
        }
    }
  }

  lemma {:induction false} OneEntry(f: Refuses, before: Sweep, w: Waiting)
    ensures SweepAll(f, SILENT, before, [w]) == SweepOne(f, SILENT, before, w)
    ensures !before.stopped ==> FindsStuck(SILENT, before, w.pr)
  {
    hide SweepOne;
    assert [w][..0] == [];
  }

  lemma {:induction false} InterleavingIsRun(f: Refuses, s: Store, steps: seq<Step>, q: int) returns (acts: seq<Act>)
    requires AcceptsAll(f)
    ensures Possible(f, s, acts) && LoopOf(AllDone(f, s, acts), q) == After(LoopOf(s, q), steps)
    ensures MirrorAll(acts, steps, q)
  {
    hide Done, LoopOf, Next, Handed, Possible, AllDone, After, Mirrors;
    Onto(f, s, [], Swept(SILENT, []), LoopOf(s, q), [], Sweeps(false, false));
    if steps == [] {
      acts := [];
    } else {
      var front, last := steps[..|steps| - 1], steps[|steps| - 1];
      assert front + [last] == steps;
      hide MirrorAll;
      var before := InterleavingIsRun(f, s, front, q);
      var a := StepIsAct(f, AllDone(f, s, before), last, q);
      acts := before + [a];
      Onto(f, s, before, a, LoopOf(s, q), front, last);
      PossibleFront(f, s, before, a, acts);
      MirrorSnoc(before, front, a, last, q);
    }
  }

  /* ---- the theorem ---- */

  /** Every restart of the pull request puts one of the two waits back. */
  predicate RestartsName(acts: seq<Act>, q: int) {
    forall i :: 0 <= i < |acts| && Asks(acts[i], q) ==> PutsWait(acts[i].leg)
  }

  /** The pull request carries one awaiting label and no halt, or a halt and no
      awaiting label; and of the writes logged about it, it was halted no more often
      than marked retried, and marked retried at most once more than its halt was
      taken off. */
  ghost predicate InOrder(s: Store, q: int) { Kept(LoopOf(s, q)) }

  /** On a forge that refuses nothing, over every run of sweeps of any lists and of
      restarts that put a wait back: a pull request that waits stays in order exactly
      when it is stopped or carries no foreign label, whatever is done to the others. */
  lemma {:induction false} RunsKeepOrderExactlyWhen(f: Refuses, s: Store, q: int)
    requires AcceptsAll(f) && s.log == [] && Waits(LabelsOf(s, q)) && RETRIED !in LabelsOf(s, q)
    ensures (forall acts :: Possible(f, s, acts) && RestartsName(acts, q) ==> InOrder(AllDone(f, s, acts), q)) <==>
            STOP in LabelsOf(s, q) || NoForeign(LabelsOf(s, q))
  {
    var labels := LabelsOf(s, q);
    NothingLogged(s, q);
    hide *;
    KeptExactlyWhen(labels);
    if STOP in labels || NoForeign(labels) {
      forall acts | Possible(f, s, acts) && RestartsName(acts, q) ensures InOrder(AllDone(f, s, acts), q) {
        var steps := RunIsInterleaving(f, s, acts, q);
        SameNames(acts, steps, q);
        InOrderIs(AllDone(f, s, acts), q);
      }
    } else {
      var steps :| NamesAll(steps) && !Kept(After(Start(labels), steps));
      var acts := InterleavingIsRun(f, s, steps, q);
      SameNames(acts, steps, q);
      InOrderIs(AllDone(f, s, acts), q);
    }
  }

  lemma {:induction false} NothingLogged(s: Store, q: int)
    requires s.log == []
    ensures LoopOf(s, q) == Start(LabelsOf(s, q))
  {
  }

  lemma {:induction false} InOrderIs(s: Store, q: int)
    ensures InOrder(s, q) <==> Kept(LoopOf(s, q))
  {
  }

  lemma {:induction false} SameNames(acts: seq<Act>, steps: seq<Step>, q: int)
    requires MirrorAll(acts, steps, q)
    ensures RestartsName(acts, q) <==> NamesAll(steps)
  {
    hide PutsWait;
    forall i | 0 <= i < |acts| ensures Asks(acts[i], q) <==> steps[i].Restarts? {
      assert Mirrors(acts[i], steps[i], q);
    }
    assert forall i :: 0 <= i < |acts| && Asks(acts[i], q) ==> Mirrors(acts[i], steps[i], q);
  }
}
