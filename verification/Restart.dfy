/**
 The restart command, its refusals, its ordered writes and the events they fire.
 */
module Restart {
  import opened Text
  import opened Passes
  import opened Labels
  import opened Watchdog

  /** The leg a halt belongs to, read off the markers; the first match wins. */
  function RestartLeg(p: Policy, markers: seq<Marker>): string {
    var pass := CurrentReviewPass(markers);
    var next := MarkerFor(markers, pass + 1, Review);
    var resolve := MarkerFor(markers, pass, Resolve);
    var review := MarkerFor(markers, pass, Review);
    if next.Some? && next.value.state.Declined? then LEG_REVIEW
    else if Escalated(p, markers) > 0 then LEG_REVIEW
    else if resolve.Some? && resolve.value.state.Complete? && p.passLabel(resolve.value, 0) == PassLabel.Halted then LEG_RESOLVE
    else if review.Some? && review.value.state.Complete? && review.value.verdict == VERDICT_BLOCKED then LEG_REVIEW
    else if review.Some? && review.value.state.Complete? && review.value.verdict != VERDICT_CONVERGED && resolve.None? then LEG_RESOLVE
    else if markers != [] && (markers[|markers| - 1].state.Started? || markers[|markers| - 1].state.Incomplete?) then
      markers[|markers| - 1].leg
    else LEG_REVIEW
  }

  datatype RestartOutcome = NotOpen | Stopped | NotHalted | Unready | AddRefused | Restarted

  /** The awaiting label goes on before the halt comes off. */
  function RestartOne(f: Refuses, s: Store, pr: int, open: bool, ready: bool, leg: string): (Store,
      RestartOutcome) {
    var listed := LabelsOf(s, pr);
    var awaiting := AwaitingLabel(leg);
    if !open then (s, NotOpen)
    else if STOP in listed then (s, Stopped)
    else if HALTED !in listed then (s, NotHalted)
    else if !ready then (s, Unready)
    else
      var cleared := if awaiting in listed then Attempt(f, s, Remove(pr, awaiting)) else s;
      var added := Attempt(f, cleared, Add(pr, awaiting));
      if !Accepted(f, cleared, Add(pr, awaiting)) then (added, AddRefused)
      else
        var running := Attempt(f, added, Remove(pr, HALTED));
        (if RETRIED in listed then Attempt(f, running, Remove(pr, RETRIED)) else running, Restarted)
  }

  /** `ready` is whether the configuration and the markers' author could be read. */
  method Run(forge: Forge, p: Policy, pr: int, open: bool, ready: bool,
      markers: seq<Marker>) returns (outcome: RestartOutcome)
    modifies forge
    ensures (forge.Current(), outcome) == RestartOne(forge.refuses, old(forge.Current()), pr, open, ready, RestartLeg(p, markers))
  {
    hide Attempt, Accepted, RestartLeg;
    if !open {
      return NotOpen;
    }
    var listed := if pr in forge.labels then forge.labels[pr] else [];
    if STOP in listed {
      return Stopped;
    }
    if HALTED !in listed {
      return NotHalted;
    }
    if !ready {
      return Unready;
    }
    var awaiting := AwaitingLabel(RestartLeg(p, markers));
    if awaiting in listed {
      forge.LabelRemove(pr, awaiting);
    }
    var ok := forge.LabelAdd(pr, awaiting);
    if !ok {
      return AddRefused;
    }
    forge.LabelRemove(pr, HALTED);
    if RETRIED in listed {
      forge.LabelRemove(pr, RETRIED);
    }
    return Restarted;
  }

  /* ---- one attempt ---- */

  ghost predicate AcceptsAll(f: Refuses) { forall log, w :: !f(log, w) }

  lemma {:induction false} AttemptHolds(f: Refuses, s: Store, w: Write, pr: int, k: string)
    ensures var before, after := LabelsOf(s, pr), LabelsOf(Attempt(f, s, w), pr);
            k in after <==>
            if w.pr != pr || w.Comment? || !Accepted(f, s, w) then k in before
            else if w.Add? then k in before || k == w.name
            else k in before && k != w.name
  {
    if !w.Comment? {
      WithHolds(LabelsOf(s, w.pr), w.name, k);
      WithoutHolds(LabelsOf(s, w.pr), w.name, k);
      hide With, Without;
    }
  }

  /** A restart whose add is refused leaves the halt on, so it can be run again. */
  lemma {:induction false} RefusedRestartStaysHalted(f: Refuses, s: Store, pr: int, open: bool, ready: bool,
      leg: string)
    requires RestartOne(f, s, pr, open, ready, leg).1 == AddRefused
    ensures var after := RestartOne(f, s, pr, open, ready, leg).0;
            && HALTED in LabelsOf(after, pr) && STOP !in LabelsOf(after, pr)
            && forall g, l :: RestartOne(g, after, pr, open, ready, l).1 in {AddRefused, Restarted}
  {
    var awaiting := AwaitingLabel(leg);
    var cleared := if awaiting in LabelsOf(s, pr) then Attempt(f, s, Remove(pr, awaiting)) else s;
    AttemptHolds(f, s, Remove(pr, awaiting), pr, HALTED);
    AttemptHolds(f, s, Remove(pr, awaiting), pr, STOP);
    AttemptHolds(f, cleared, Add(pr, awaiting), pr, HALTED);
    AttemptHolds(f, cleared, Add(pr, awaiting), pr, STOP);
    AwaitingIsOwn(leg);
    hide Attempt, Accepted;
  }

  /* ---- which writes fire ---- */

  /** The store after a run of writes. */
  function AttemptAll(f: Refuses, s: Store, ws: seq<Write>): Store {
    if ws == [] then s else Attempt(f, AttemptAll(f, s, ws[..|ws| - 1]), ws[|ws| - 1])
  }

  /** The labels whose going on fires an event: an add of a label that is already
      there fires none. */
  function Fired(f: Refuses, s: Store, ws: seq<Write>): seq<string> {
    if ws == [] then []
    else
      var front, last := ws[..|ws| - 1], ws[|ws| - 1];
      var before := AttemptAll(f, s, front);
      Fired(f, s, front) +
      if last.Add? && Accepted(f, before, last) && last.name !in LabelsOf(before, last.pr) then [last.name] else []
  }

  lemma {:induction false} AttemptAllOnto(f: Refuses, s: Store, ws: seq<Write>, w: Write)
    requires AcceptsAll(f)
    ensures var before := AttemptAll(f, s, ws);
            && AttemptAll(f, s, ws + [w]) == Attempt(f, before, w)
            && Fired(f, s, ws + [w]) == Fired(f, s, ws) + if w.Add? && w.name !in LabelsOf(before, w.pr) then [w.name] else []
  {
    assert (ws + [w])[..|ws|] == ws;
    hide Attempt, LabelsOf;
  }

  /** The writes one retry or one restart makes, as the log records them. */
  function Made(before: Store, after: Store): seq<Write> {
    if |before.log| <= |after.log| then after.log[|before.log|..] else []
  }

  lemma {:induction false} AttemptLogs(f: Refuses, s: Store, w: Write)
    ensures Attempt(f, s, w).log == s.log + [w]
  {
  }

  lemma {:induction false} AttemptAllLogs(f: Refuses, s: Store, ws: seq<Write>)
    ensures AttemptAll(f, s, ws).log == s.log + ws
    ensures Made(s, AttemptAll(f, s, ws)) == ws
  {
    if ws != [] {
      AttemptAllLogs(f, s, ws[..|ws| - 1]);
      AttemptLogs(f, AttemptAll(f, s, ws[..|ws| - 1]), ws[|ws| - 1]);
      hide Attempt;
    }
  }

  /** A retry takes the awaiting label off and puts it back, so its event fires
      exactly once; a halt never fires it. */
  lemma {:induction false} RetryFiresOnce(f: Refuses, s: Store, pr: int, leg: Leg)
    requires AcceptsAll(f)
    ensures var listed := LabelsOf(s, pr);
            var after := Retry(f, s, pr, listed, leg).0;
            Fired(f, s, Made(s, after)) ==
            if RETRIED in listed then (if HALTED in listed then [] else [HALTED])
            else [RETRIED, WaitOf(leg)]
  {
    var awaiting, listed := WaitOf(leg), LabelsOf(s, pr);
    if RETRIED in listed {
      HaltFires(f, s, pr, awaiting);
    } else {
      RefireFires(f, s, pr, awaiting);
    }
    hide Attempt, Fired, AttemptAll, Made, LabelsOf;
  }

  lemma {:induction false} HaltFires(f: Refuses, s: Store, pr: int, awaiting: string)
    requires AcceptsAll(f) && awaiting != HALTED
    ensures var ws := [Remove(pr, awaiting), Add(pr, HALTED), Comment(pr)];
            var after := Attempt(f, Attempt(f, Attempt(f, s, ws[0]), ws[1]), ws[2]);
            Fired(f, s, Made(s, after)) == if HALTED in LabelsOf(s, pr) then [] else [HALTED]
  {
    var a, b, c := Remove(pr, awaiting), Add(pr, HALTED), Comment(pr);
    AttemptHolds(f, s, a, pr, HALTED);
    ThreeWrites(f, s, a, b, c);
    hide Attempt, LabelsOf, Made, Fired;
  }

  lemma {:induction false} RefireFires(f: Refuses, s: Store, pr: int, awaiting: string)
    requires AcceptsAll(f) && RETRIED !in LabelsOf(s, pr) && awaiting != RETRIED
    ensures var ws := [Add(pr, RETRIED), Remove(pr, awaiting), Add(pr, awaiting)];
            var after := Attempt(f, Attempt(f, Attempt(f, s, ws[0]), ws[1]), ws[2]);
            Fired(f, s, Made(s, after)) == [RETRIED, awaiting]
  {
    var a, b, c := Add(pr, RETRIED), Remove(pr, awaiting), Add(pr, awaiting);
    AttemptHolds(f, Attempt(f, s, a), b, pr, awaiting);
    ThreeWrites(f, s, a, b, c);
    hide Attempt, LabelsOf, Made, Fired;
  }

  function FiredBy(s: Store, w: Write): seq<string> {
    if w.Add? && w.name !in LabelsOf(s, w.pr) then [w.name] else []
  }

  lemma {:induction false} TwoWrites(f: Refuses, s: Store, a: Write, b: Write)
    requires AcceptsAll(f)
    ensures AttemptAll(f, s, [a, b]) == Attempt(f, Attempt(f, s, a), b)
    ensures Fired(f, s, [a, b]) == FiredBy(s, a) + FiredBy(Attempt(f, s, a), b)
  {
    NoWrites(f, s);
    hide Attempt, LabelsOf, Fired, AttemptAll;
    AttemptAllOnto(f, s, [], a);
    AttemptAllOnto(f, s, [a], b);
    assert [] + [a] == [a] && [a] + [b] == [a, b];
  }

  lemma {:induction false} NoWrites(f: Refuses, s: Store)
    ensures AttemptAll(f, s, []) == s && Fired(f, s, []) == []
  {
  }

  lemma {:induction false} ThreeWrites(f: Refuses, s: Store, a: Write, b: Write, c: Write)
    requires AcceptsAll(f)
    ensures var one := Attempt(f, s, a);
            var two := Attempt(f, one, b);
            Fired(f, s, Made(s, Attempt(f, two, c))) == FiredBy(s, a) + FiredBy(one, b) + FiredBy(two, c)
  {
    hide Attempt, LabelsOf, Made, Fired, AttemptAll;
    TwoWrites(f, s, a, b);
    AttemptAllOnto(f, s, [a, b], c);
    assert [a, b] + [c] == [a, b, c];
    AttemptAllLogs(f, s, [a, b, c]);
  }

  /** A restart of a halted pull request adds its leg's awaiting label where it is
      not on, so its event fires whether or not the label was on before. */
  lemma {:induction false} RestartFires(f: Refuses, s: Store, pr: int, leg: string)
    requires AcceptsAll(f) && HALTED in LabelsOf(s, pr) && STOP !in LabelsOf(s, pr)
    ensures var awaiting := AwaitingLabel(leg);
            var listed := LabelsOf(s, pr);
            var cleared := if awaiting in listed then Attempt(f, s, Remove(pr, awaiting)) else s;
            && awaiting !in LabelsOf(cleared, pr)
            && RestartOne(f, s, pr, true, true, leg).1 == Restarted
            && Add(pr, awaiting) in Made(s, RestartOne(f, s, pr, true, true, leg).0)
  {
    var awaiting, listed := AwaitingLabel(leg), LabelsOf(s, pr);
    AttemptHolds(f, s, Remove(pr, awaiting), pr, awaiting);
    var cleared := if awaiting in listed then Attempt(f, s, Remove(pr, awaiting)) else s;
    var added := Attempt(f, cleared, Add(pr, awaiting));
    var running := Attempt(f, added, Remove(pr, HALTED));
    AttemptLogs(f, s, Remove(pr, awaiting));
    AttemptLogs(f, cleared, Add(pr, awaiting));
    AttemptLogs(f, added, Remove(pr, HALTED));
    AttemptLogs(f, running, Remove(pr, RETRIED));
    hide Attempt, LabelsOf;
    var after := RestartOne(f, s, pr, true, true, leg).0;
    assert after.log[|cleared.log|] == Add(pr, awaiting);
    assert Made(s, after)[|cleared.log| - |s.log|] == Add(pr, awaiting);
  }

  /* ---- the leg ---- */

  /** The newest marker claims a leg that never finished. */
  predicate OpenClaim(markers: seq<Marker>) {
    markers != [] && (markers[|markers| - 1].state.Started? || markers[|markers| - 1].state.Incomplete?)
  }

  /** The review one pass ahead was declined at the cap. */
  ghost predicate DeclinedAhead(markers: seq<Marker>) {
    exists m :: Newest(markers, CurrentReviewPass(markers) + 1, Review, m) && m.state.Declined?
  }

  ghost predicate SomeEscalated(p: Policy, markers: seq<Marker>) {
    exists m :: m in markers && m.leg == LEG_RESOLVE && p.escalations(m.resolutions) != 0
  }

  /** The resolve of this pass completed and its own label says halted. */
  ghost predicate HaltedResolve(p: Policy, markers: seq<Marker>) {
    exists m :: Newest(markers, CurrentReviewPass(markers), Resolve, m) && m.state.Complete? && p.passLabel(m, 0) == PassLabel.Halted
  }

  ghost predicate BlockedReview(markers: seq<Marker>) {
    exists m :: Newest(markers, CurrentReviewPass(markers), Review, m) && m.state.Complete? && m.verdict == VERDICT_BLOCKED
  }

  /** The review of this pass completed with findings no resolve marker answers. */
  ghost predicate UnansweredReview(markers: seq<Marker>) {
    var pass := CurrentReviewPass(markers);
    && (exists m :: Newest(markers, pass, Review, m) && m.state.Complete? && m.verdict != VERDICT_BLOCKED && m.verdict != VERDICT_CONVERGED)
    && forall m :: m in markers ==> !(m.pass == pass && m.leg == LEG_RESOLVE)
  }

  /** Nothing on the markers settles which leg a halt belongs to. */
  ghost predicate Unsettled(p: Policy, markers: seq<Marker>) {
    && !DeclinedAhead(markers) && !SomeEscalated(p, markers) && !HaltedResolve(p, markers)
    && !BlockedReview(markers) && !UnansweredReview(markers)
  }

  lemma {:induction false} NoneFor(markers: seq<Marker>, pass: int)
    ensures MarkerFor(markers, pass, Resolve).None? <==> forall m :: m in markers ==> !(m.pass == pass && m.leg == LEG_RESOLVE)
  {
    OneNewest(markers, pass, Resolve);
    hide MarkerFor, NewestAt;
  }

  /** The first of these that holds names the leg. */
  lemma {:induction false} RestartLegIs(p: Policy, markers: seq<Marker>)
    ensures RestartLeg(p, markers) ==
            if DeclinedAhead(markers) || SomeEscalated(p, markers) then LEG_REVIEW
            else if HaltedResolve(p, markers) then LEG_RESOLVE
            else if BlockedReview(markers) then LEG_REVIEW
            else if UnansweredReview(markers) then LEG_RESOLVE
            else if OpenClaim(markers) then markers[|markers| - 1].leg
            else LEG_REVIEW
  {
    var pass := CurrentReviewPass(markers);
    NoneEscalated(p, markers);
    forall m, leg: Leg, k | k == pass || k == pass + 1
      ensures Newest(markers, k, leg, m) <==> MarkerFor(markers, k, leg) == Some(m)
    {
      NewestIs(markers, k, leg, m);
    }
    NoneFor(markers, pass);
    hide Escalated, MarkerFor, Newest, CurrentReviewPass;
  }

  lemma {:induction false} LegsDiffer()
    ensures LEG_REVIEW != LEG_RESOLVE
  {
    assert |LEG_REVIEW| == 6 && |LEG_RESOLVE| == 7;
  }

  /** A restart names the resolve leg exactly when no review one pass ahead was
      declined, nothing is escalated, and either this pass's resolve ended halted, or
      its review left findings that no resolve answers, or an open claim that nothing
      settles spells it. */
  lemma {:induction false} RestartsResolveExactlyWhen(p: Policy, markers: seq<Marker>)
    ensures RestartLeg(p, markers) == LEG_RESOLVE <==>
            && !DeclinedAhead(markers) && !SomeEscalated(p, markers)
            && (|| HaltedResolve(p, markers) || UnansweredReview(markers)
                || (Unsettled(p, markers) && OpenClaim(markers) && markers[|markers| - 1].leg == LEG_RESOLVE))
  {
    RestartLegIs(p, markers);
    LegsDiffer();
    NotBoth(markers);
    hide RestartLeg, DeclinedAhead, SomeEscalated, HaltedResolve, BlockedReview, UnansweredReview;
  }

  /** And the review leg exactly when one of those reviews was declined, something is
      escalated, the review of this pass is blocked and its resolve did not end
      halted, or nothing settles it and no open claim spells anything else. */
  lemma {:induction false} RestartsReviewExactlyWhen(p: Policy, markers: seq<Marker>)
    ensures RestartLeg(p, markers) == LEG_REVIEW <==>
            || DeclinedAhead(markers) || SomeEscalated(p, markers)
            || (BlockedReview(markers) && !HaltedResolve(p, markers))
            || (Unsettled(p, markers) && (OpenClaim(markers) ==> markers[|markers| - 1].leg == LEG_REVIEW))
  {
    RestartLegIs(p, markers);
    LegsDiffer();
    NotBoth(markers);
    hide RestartLeg, DeclinedAhead, SomeEscalated, HaltedResolve, BlockedReview, UnansweredReview;
  }

  lemma {:induction false} NotBoth(markers: seq<Marker>)
    ensures !(BlockedReview(markers) && UnansweredReview(markers))
  {
    var pass := CurrentReviewPass(markers);
    forall m ensures Newest(markers, pass, Review, m) <==> MarkerFor(markers, pass, Review) == Some(m) {
      NewestIs(markers, pass, Review, m);
    }
    hide MarkerFor, Newest, CurrentReviewPass;
  }

  /** The leg is the newest marker's, whatever that spells, when nothing settles it
      and that marker is an open claim; otherwise it is one of the two legs. */
  lemma {:induction false} OpenClaimNamesTheLeg(p: Policy, markers: seq<Marker>)
    ensures Unsettled(p, markers) && OpenClaim(markers) ==> RestartLeg(p, markers) == markers[|markers| - 1].leg
    ensures !(Unsettled(p, markers) && OpenClaim(markers)) ==> RestartLeg(p, markers) in {LEG_REVIEW, LEG_RESOLVE}
  {
    RestartLegIs(p, markers);
    hide RestartLeg, DeclinedAhead, SomeEscalated, HaltedResolve, BlockedReview, UnansweredReview;
  }

  /** A restart puts neither wait back exactly when nothing settles the leg and the
      newest marker is an open claim whose own leg spells none. */
  lemma {:induction false} LeglessExactlyWhen(p: Policy, markers: seq<Marker>)
    ensures !PutsWait(RestartLeg(p, markers)) <==>
            Unsettled(p, markers) && OpenClaim(markers) && !PutsWait(markers[|markers| - 1].leg)
  {
    OpenClaimNamesTheLeg(p, markers);
    LegsWait(Review);
    LegsWait(Resolve);
    hide RestartLeg, Unsettled, PutsWait;
  }
}
