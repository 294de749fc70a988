/**
 The local loop as a protocol: every run's trace of loads, legs and endings,
 against a world that answers each step from everything that happened before.
 */
module Cycle {
  import opened Text
  import opened Passes

  datatype Trigger = Human | Automatic | Unknown(text: string)

  datatype Request = Request(pr: int, repo: string, trigger: Trigger, harness: string, model: string, effort: string,
                             inputPolicy: string, keepTranscripts: bool, noTips: bool)

  datatype LegRequest = LegRequest(pr: int, repo: string, trigger: Trigger, harness: string, model: string, effort: string,
                                   inputPolicy: string, keepTranscripts: bool, continuation: bool, noTips: bool)

  datatype LoadRequest = LoadRequest(pr: int, repo: string, trigger: Trigger)

  /** A load that answers None refused. */
  datatype Event =
    | Load(asked: LoadRequest, state: Option<State>)
    | Ran(leg: Leg, request: LegRequest, failed: bool)
    | End(ending: Ending)
    | Nudge

  /** What the loader, the two legs and the pairing check answer, each depending
      on the whole run so far. */
  datatype World = World(load: (seq<Event>, LoadRequest) -> Option<State>,
                         fails: (seq<Event>, Leg, LegRequest) -> bool,
                         pairs: string -> bool,
                         policy: Policy)

  function LegRequestOf(r: Request, continuation: bool): LegRequest {
    LegRequest(r.pr, r.repo, r.trigger, r.harness, r.model, r.effort, r.inputPolicy, r.keepTranscripts, continuation, true)
  }

  /* ---- reading a trace ---- */

  function Last(t: seq<Event>): Event
    requires t != []
  {
    t[|t| - 1]
  }

  function Front(t: seq<Event>): seq<Event>
    requires t != []
  {
    t[..|t| - 1]
  }

  /** The last state a load answered. */
  function Latest(t: seq<Event>): Option<State> {
    if t == [] then None
    else if Last(t).Load? && Last(t).state.Some? then Last(t).state
    else Latest(Front(t))
  }

  /** The state the first load answered. */
  function Opening(t: seq<Event>): Option<State> {
    if t != [] && t[0].Load? then t[0].state else None
  }

  function Runs(t: seq<Event>, leg: Leg): nat {
    if t == [] then 0 else Runs(Front(t), leg) + if Last(t).Ran? && Last(t).leg == leg then 1 else 0
  }

  function LastLeg(t: seq<Event>): Option<Leg> {
    if t == [] then None else if Last(t).Ran? then Some(Last(t).leg) else LastLeg(Front(t))
  }

  /** The pass number read at the load that followed the last review leg, or at
      the opening load when no review leg has run. */
  function PassRead(t: seq<Event>): int {
    if t == [] then 0
    else if Last(t).Load? && Last(t).state.Some? && (Front(t) == [] || (Last(Front(t)).Ran? && Last(Front(t)).leg.Review?))
    then CurrentReviewPass(Last(t).state.value.markers)
    else PassRead(Front(t))
  }

  function PassOf(s: State): int { CurrentReviewPass(s.markers) }

  /** The run opened on a pass already at its cap. */
  predicate AtBound(t: seq<Event>) {
    Opening(t).Some? && PassOf(Opening(t).value) >= Opening(t).value.maxPasses
  }

  /** The last event is a load that answered. */
  predicate Loaded(t: seq<Event>) { t != [] && Last(t).Load? && Last(t).state.Some? }

  /** The last two events are a leg and the load that followed it. */
  predicate LoadedAfter(t: seq<Event>, leg: Leg) {
    Loaded(t) && Front(t) != [] && Last(Front(t)).Ran? && Last(Front(t)).leg == leg
  }

  /* ---- the protocol ---- */

  function MaxOf(t: seq<Event>): int { if Opening(t).Some? then Opening(t).value.maxPasses else 0 }

  /** The opening load answered, with no draft to decline and a fitting pair. */
  predicate Admitted(w: World, r: Request, t: seq<Event>) {
    Opening(t).Some? && !Opening(t).value.draft && w.pairs(r.harness)
  }

  predicate LoadAllowed(w: World, r: Request, t: seq<Event>, asked: LoadRequest) {
    if t == [] then asked == LoadRequest(r.pr, r.repo, r.trigger)
    else if AtBound(t) then
      && Last(t).Ran? && !Last(t).failed && Latest(t).Some?
      && asked == LoadRequest(Latest(t).value.pr, Latest(t).value.repo, Human)
    else
      && asked == LoadRequest(r.pr, r.repo, Human)
      && ((Last(t).Ran? && !Last(t).failed)
          || (LoadedAfter(t, Resolve) && ReadResolve(w.policy, Last(t).state.value, PassRead(t)).Continues? && Runs(t, Review) < MaxOf(t)))
  }

  predicate ReviewAllowed(w: World, r: Request, t: seq<Event>, asked: LegRequest) {
    && Loaded(t) && Admitted(w, r, t)
    && var s := Last(t).state.value;
       if AtBound(t) then
         && Runs(t, Review) == 0 && Runs(t, Resolve) == 0
         && var m := MarkerOf(s.markers, PassOf(s), Review);
            !m.state.Complete? && asked == LegRequestOf(r, !m.state.Started?)
       else
         && LastLeg(t) != Some(Review) && (LastLeg(t).Some? ==> !LoadedAfter(t, Resolve))
         && PassOf(s) < MaxOf(t) && Runs(t, Review) < MaxOf(t)
         && asked == LegRequestOf(r, Runs(t, Review) > 0)
  }

  predicate ResolveAllowed(w: World, r: Request, t: seq<Event>, asked: LegRequest) {
    && Loaded(t) && Admitted(w, r, t) && asked == LegRequestOf(r, false)
    && var s := Last(t).state.value;
       && ReadReview(w.policy, s, PassOf(s)).Continues?
       && if AtBound(t) then
            && Runs(t, Resolve) == 0
            && MarkerOf(s.markers, PassOf(s), Review).state.Complete?
            && !CurrentPassComplete(s.markers, PassOf(s), Resolve)
          else LoadedAfter(t, Review)
  }

  /** What the last load and the leg before it say the run ends on. */
  predicate EndAllowed(w: World, r: Request, t: seq<Event>, e: Ending) {
    && Loaded(t) && Admitted(w, r, t)
    && var s := Last(t).state.value;
       var review := ReadReview(w.policy, s, PassOf(s));
       var resolve := ReadResolve(w.policy, s, PassRead(t));
       if LoadedAfter(t, Resolve) then
         match resolve {
           case Continues => if AtBound(t) then e == PassResolved(PassRead(t)) else Runs(t, Review) == MaxOf(t) && e == CapReached
           case Halts(h) => e == h
           case Finishes(f) => e == f
         }
       else if AtBound(t) then
         if !MarkerOf(s.markers, PassOf(s), Review).state.Complete? then
           LoadedAfter(t, Review) && e == ReviewUnfinished(PassOf(s))
         else
           match review {
             case Continues => CurrentPassComplete(s.markers, PassOf(s), Resolve) && e == CapWithoutStarting
             case Halts(h) => e == h
             case Finishes(f) => e == f
           }
       else if LoadedAfter(t, Review) then (review.Halts? || review.Finishes?) && e == review.e
       else LastLeg(t) == Some(Resolve) && PassOf(s) >= MaxOf(t) && e == CapWithoutStarting
  }

  /** The endings a tip may follow: the cap, and a converged or empty pass. */
  predicate NudgeAllowed(r: Request, t: seq<Event>) {
    && t != [] && Last(t).End? && !r.noTips && !AtBound(t)
    && (Last(t).ending.CapReached? || Last(t).ending.ReportedConverged? || Last(t).ending.EscalationStands?)
  }

  predicate Allowed(w: World, r: Request, t: seq<Event>, e: Event) {
    match e
    case Load(asked, state) => LoadAllowed(w, r, t, asked) && state == w.load(t, asked)
    case Ran(leg, asked, failed) =>
      (if leg.Review? then ReviewAllowed(w, r, t, asked) else ResolveAllowed(w, r, t, asked)) && failed == w.fails(t, leg, asked)
    case End(ending) => EndAllowed(w, r, t, ending)
    case Nudge => NudgeAllowed(r, t)
  }

  /** Every step of the run was allowed by the run before it. */
  predicate Legal(w: World, r: Request, t: seq<Event>)
    decreases |t|
  {
    t == [] || (Legal(w, r, Front(t)) && Allowed(w, r, Front(t), Last(t)))
  }

  /** How a run stops: a refusal or a failed leg answers 1, and an ending the
      loop reports, with the tip it owes, answers 0. */
  predicate Stopped(w: World, r: Request, t: seq<Event>, code: nat) {
    if t == [] then code == 1 && (r.pr == 0 || r.trigger.Unknown?)
    else
      match Last(t)
      case Load(_, state) =>
        if state.None? then code == 1
        else if |t| == 1 && state.value.draft then code == 0
        else |t| == 1 && code == 1 && !w.pairs(r.harness)
      case Ran(_, _, failed) => failed && code == 1
      case End(_) => code == 0 && !NudgeAllowed(r, t)
      case Nudge => code == 0
  }

  /* ---- one step ---- */

  lemma {:induction false} Grown(w: World, r: Request, t: seq<Event>, e: Event)
    requires Legal(w, r, t) && Allowed(w, r, t, e)
    ensures Legal(w, r, t + [e])
    ensures Front(t + [e]) == t && Last(t + [e]) == e
    ensures t != [] ==> Opening(t + [e]) == Opening(t)
    ensures t == [] && e.Load? ==> Opening(t + [e]) == e.state
    ensures Runs(t + [e], Review) == Runs(t, Review) + (if e.Ran? && e.leg.Review? then 1 else 0)
    ensures Runs(t + [e], Resolve) == Runs(t, Resolve) + (if e.Ran? && e.leg.Resolve? then 1 else 0)
    ensures LastLeg(t + [e]) == if e.Ran? then Some(e.leg) else LastLeg(t)
    ensures e.Load? && e.state.Some? && (t == [] || (Last(t).Ran? && Last(t).leg.Review?)) ==> PassRead(t + [e]) == PassOf(e.state.value)
    ensures !(e.Load? && e.state.Some? && (t == [] || (Last(t).Ran? && Last(t).leg.Review?))) ==> PassRead(t + [e]) == PassRead(t)
    ensures Latest(t + [e]) == if e.Load? && e.state.Some? then e.state else Latest(t)
  {
    assert Front(t + [e]) == t && Last(t + [e]) == e;
    hide Allowed;
  }

  /** What a load that follows another changes. */
  ghost predicate Reloaded(before: seq<Event>, t: seq<Event>, answered: Option<State>)
    requires before != []
  {
    && t != [] && Front(t) == before && Last(t).Load? && Last(t).state == answered
    && Opening(t) == Opening(before) && LastLeg(t) == LastLeg(before)
    && Runs(t, Review) == Runs(before, Review) && Runs(t, Resolve) == Runs(before, Resolve)
  }

  method AskLoad(w: World, r: Request, before: seq<Event>, asked: LoadRequest) returns (t: seq<Event>,
      answered: Option<State>)
    requires Legal(w, r, before) && LoadAllowed(w, r, before, asked)
    ensures answered == w.load(before, asked) && t == before + [Load(asked, answered)] && Legal(w, r, t)
    ensures before != [] ==> Reloaded(before, t, answered)
  {
    hide Legal, Runs, LastLeg, PassRead, Latest, LoadAllowed;
    answered := w.load(before, asked);
    Grown(w, r, before, Load(asked, answered));
    t := before + [Load(asked, answered)];
  }

  /** Reports an ending and, when the run asked for tips, the tip after it. */
  method Report(w: World, r: Request, before: seq<Event>, e: Ending, tip: bool) returns (t: seq<Event>)
    requires Legal(w, r, before) && Loaded(before) && EndAllowed(w, r, before, e)
    requires tip <==> !AtBound(before) && (e.CapReached? || e.ReportedConverged? || e.EscalationStands?)
    ensures Legal(w, r, t) && Stopped(w, r, t, 0)
  {
    hide EndAllowed, Legal, AtBound;
    Grown(w, r, before, End(e));
    t := before + [End(e)];
    SameBound(before, t);
    if tip && !r.noTips {
      Grown(w, r, t, Nudge);
      t := t + [Nudge];
    }
  }

  lemma {:induction false} SameBound(t: seq<Event>, u: seq<Event>)
    requires t != [] && u != [] && Opening(t) == Opening(u)
    ensures AtBound(t) == AtBound(u) && MaxOf(t) == MaxOf(u)
  {
  }

  /** Drives the cycle. */
  method Run(w: World, r: Request) returns (t: seq<Event>, code: nat)
    ensures Legal(w, r, t) && Stopped(w, r, t, code)
  {
    hide ReadReview, ReadResolve, CurrentReviewPass, MarkerOf, CurrentPassComplete;
    t := [];
    if r.pr == 0 || r.trigger.Unknown? {
      return t, 1;
    }
    var answered: Option<State>;
    t, answered := AskLoad(w, r, t, LoadRequest(r.pr, r.repo, r.trigger));
    if answered.None? {
      return t, 1;
    }
    var state := answered.value;
    if state.draft {
      return t, 0;
    }
    if !w.pairs(r.harness) {
      return t, 1;
    }
    var max, pass := state.maxPasses, PassOf(state);
    Opened(w, r, t, state);
    hide Legal;
    if pass >= max {
      t, code := FinishAtBound(w, r, t, state);
      return;
    }
    t, code := Cycle(w, r, t, state);
  }

  lemma {:induction false} Opened(w: World, r: Request, t: seq<Event>, state: State)
    requires t == [Load(LoadRequest(r.pr, r.repo, r.trigger), Some(state))]
    ensures Loaded(t) && Opening(t) == Some(state) && Runs(t, Review) == 0 && Runs(t, Resolve) == 0 && LastLeg(t) == None
    ensures Latest(t) == Some(state) && PassRead(t) == PassOf(state)
    ensures Front(t) == []
  {
    assert Front(t) == [];
  }

  /** Runs one leg and loads what it left. A failed leg and a refused load both
      answer None. */
  method LegAndLoad(w: World, r: Request, before: seq<Event>, leg: Leg, asked: LegRequest, reload: LoadRequest)
    returns (t: seq<Event>, answered: Option<State>)
    requires Legal(w, r, before) && Loaded(before)
    requires if leg.Review? then ReviewAllowed(w, r, before, asked) else ResolveAllowed(w, r, before, asked)
    requires reload == ReloadOf(r, before)
    ensures Legal(w, r, t)
    ensures answered.None? ==> Stopped(w, r, t, 1)
    ensures answered.Some? ==> After(before, t, leg, answered.value)
  {
    hide Legal, ReviewAllowed, ResolveAllowed, Runs, LastLeg, PassRead, Latest, CurrentReviewPass;
    var failed := w.fails(before, leg, asked);
    var ran := before + [Ran(leg, asked, failed)];
    Grown(w, r, before, Ran(leg, asked, failed));
    if failed {
      return ran, None;
    }
    ReloadAllowed(w, r, before, ran);
    answered := w.load(ran, reload);
    Grown(w, r, ran, Load(reload, answered));
    t := ran + [Load(reload, answered)];
  }

  /** Every load after the first: in the loop what the request named, at the
      bound what the last load resolved. */
  function ReloadOf(r: Request, t: seq<Event>): LoadRequest {
    if AtBound(t) && Latest(t).Some? then LoadRequest(Latest(t).value.pr, Latest(t).value.repo, Human)
    else LoadRequest(r.pr, r.repo, Human)
  }

  /** What one leg and the load after it change. */
  ghost predicate After(before: seq<Event>, t: seq<Event>, leg: Leg, state: State) {
    && t != [] && before != [] && LoadedAfter(t, leg) && Last(t).state == Some(state) && Latest(t) == Some(state)
    && Opening(t) == Opening(before) && LastLeg(t) == Some(leg)
    && Runs(t, Review) == Runs(before, Review) + (if leg.Review? then 1 else 0)
    && Runs(t, Resolve) == Runs(before, Resolve) + (if leg.Resolve? then 1 else 0)
    && PassRead(t) == if leg.Review? then PassOf(state) else PassRead(before)
  }

  lemma {:induction false} ReloadAllowed(w: World, r: Request, before: seq<Event>, ran: seq<Event>)
    requires Loaded(before) && ran != [] && Front(ran) == before && Last(ran).Ran? && !Last(ran).failed
    requires Opening(ran) == Opening(before) && Latest(ran) == Latest(before)
    ensures LoadAllowed(w, r, ran, ReloadOf(r, before))
  {
    SameBound(before, ran);
    hide AtBound;
    assert Latest(before).Some?;
  }

  lemma {:induction false} ReadingEndings(p: Policy, s: State, pass: int)
    ensures ReadReview(p, s, pass).Halts? ==> ReadReview(p, s, pass).e.ReviewerBlocked?
    ensures ReadReview(p, s, pass).Finishes? ==>
              ReadReview(p, s, pass).e.ReportedConverged? || ReadReview(p, s, pass).e.EscalationStands?
    ensures ReadResolve(p, s, pass).Finishes? ==> ReadResolve(p, s, pass).e.ReportedConverged?
    ensures ReadResolve(p, s, pass).Halts? ==>
              var e := ReadResolve(p, s, pass).e;
              !(e.ReportedConverged? || e.EscalationStands? || e.CapReached?)
  {
    hide MarkerOf, MarkerFor, Escalated, MarkerConverges;
  }

  /** A loop below its cap, between two of its steps. */
  ghost predicate Cycling(w: World, r: Request, t: seq<Event>, max: int, reviews: nat, resolves: nat) {
    && t != [] && Legal(w, r, t) && Admitted(w, r, t) && !AtBound(t) && MaxOf(t) == max
    && Runs(t, Review) == reviews && Runs(t, Resolve) == resolves
  }

  method Cycle(w: World, r: Request, opening: seq<Event>, first: State) returns (t: seq<Event>, code: nat)
    requires Legal(w, r, opening) && opening == [Load(LoadRequest(r.pr, r.repo, r.trigger), Some(first))]
    requires !first.draft && w.pairs(r.harness) && PassOf(first) < first.maxPasses
    ensures Legal(w, r, t) && Stopped(w, r, t, code)
  {
    hide Legal, Runs, LastLeg, PassRead, Latest, ReadReview, ReadResolve, CurrentReviewPass, PassOf;
    t := opening;
    Opened(w, r, t, first);
    var max, answered := first.maxPasses, Some(first);
    CurrentPassNotNegative(first);
    for i := 1 to max + 1
      invariant Cycling(w, r, t, max, i - 1, i - 1)
      invariant i == 1 ==> t == opening && LastLeg(t) == None
      invariant i > 1 ==> LoadedAfter(t, Resolve) && LastLeg(t) == Some(Resolve)
      invariant i > 1 ==> ReadResolve(w.policy, Last(t).state.value, PassRead(t)).Continues?
    {
      if i > 1 {
        t, answered := AskLoad(w, r, t, LoadRequest(r.pr, r.repo, Human));
        if answered.None? {
          return t, 1;
        }
        if PassOf(answered.value) >= max {
          t := Report(w, r, t, CapWithoutStarting, false);
          return t, 0;
        }
      }
      t, answered := LegAndLoad(w, r, t, Review, LegRequestOf(r, i > 1), LoadRequest(r.pr, r.repo, Human));
      if answered.None? {
        return t, 1;
      }
      var pass := PassOf(answered.value);
      var reading := ReadReview(w.policy, answered.value, pass);
      ReadingEndings(w.policy, answered.value, pass);
      if !reading.Continues? {
        t := Report(w, r, t, reading.e, reading.Finishes?);
        return t, 0;
      }
      t, answered := LegAndLoad(w, r, t, Resolve, LegRequestOf(r, false), LoadRequest(r.pr, r.repo, Human));
      if answered.None? {
        return t, 1;
      }
      reading := ReadResolve(w.policy, answered.value, pass);
      ReadingEndings(w.policy, answered.value, pass);
      if !reading.Continues? {
        t := Report(w, r, t, reading.e, reading.Finishes?);
        return t, 0;
      }
    }
    t := Report(w, r, t, CapReached, true);
    code := 0;
  }

  lemma {:induction false} CurrentPassNotNegative(s: State)
    ensures PassOf(s) >= 0
  {
  }

  /** Finishes the pass already at the cap: at most one leg of each kind, and
      nothing that starts a pass. */
  method FinishAtBound(w: World, r: Request, opening: seq<Event>, first: State) returns (t: seq<Event>, code: nat)
    requires Legal(w, r, opening) && opening == [Load(LoadRequest(r.pr, r.repo, r.trigger), Some(first))]
    requires !first.draft && w.pairs(r.harness) && PassOf(first) >= first.maxPasses
    ensures Legal(w, r, t) && Stopped(w, r, t, code)
  {
    hide Legal, Runs, LastLeg, PassRead, Latest, ReadReview, ReadResolve, CurrentReviewPass, PassOf, MarkerOf, CurrentPassComplete;
    t := opening;
    Opened(w, r, t, first);
    var state, pass, answered := first, PassOf(first), Some(first);
    var marker := MarkerOf(state.markers, pass, Review);
    if !marker.state.Complete? {
      t, answered := LegAndLoad(w, r, t, Review, LegRequestOf(r, !marker.state.Started?), LoadRequest(state.pr, state.repo, Human));
      if answered.None? {
        return t, 1;
      }
      state := answered.value;
      pass := PassOf(state);
      marker := MarkerOf(state.markers, pass, Review);
      if !marker.state.Complete? {
        t := Report(w, r, t, ReviewUnfinished(pass), false);
        return t, 0;
      }
    }
    var reading := ReadReview(w.policy, state, pass);
    if !reading.Continues? {
      t := Report(w, r, t, reading.e, false);
      return t, 0;
    }
    if CurrentPassComplete(state.markers, pass, Resolve) {
      t := Report(w, r, t, CapWithoutStarting, false);
      return t, 0;
    }
    t, answered := LegAndLoad(w, r, t, Resolve, LegRequestOf(r, false), LoadRequest(state.pr, state.repo, Human));
    if answered.None? {
      return t, 1;
    }
    reading := ReadResolve(w.policy, answered.value, pass);
    t := Report(w, r, t, if reading.Continues? then PassResolved(pass) else reading.e, false);
    code := 0;
  }
}
