/**
 The markers a pull request carries and what the loop reads off them: the
 current pass, a leg's newest marker, and how a leg's pass ended.
 */
module Passes {
  import opened Text

  datatype Leg = Review | Resolve

  const LEG_REVIEW := "review"
  const LEG_RESOLVE := "resolve"

  /** What a marker carries for a leg. */
  function TextOf(leg: Leg): string {
    match leg
    case Review => LEG_REVIEW
    case Resolve => LEG_RESOLVE
  }

  datatype PassState = Unset | Started | Complete | Incomplete | Declined | Otherwise

  /** `leg` is the text the marker was read with, which can be any. */
  datatype Marker = Marker(pass: int, leg: string, state: PassState, version: int, verdict: string,
                           coverageStopped: bool, coveragePresent: bool, blocked: bool,
                           findings: string, resolutions: string, commit: string)

  const NO_MARKER := Marker(0, "", Unset, 0, "", false, false, false, "", "", "")

  /** The newest review pass that ran. */
  function CurrentReviewPass(markers: seq<Marker>): (pass: int)
    ensures pass >= 0
    ensures forall m :: m in markers && m.leg == LEG_REVIEW && !m.state.Declined? ==> m.pass <= pass
    ensures pass == 0 || exists m :: m in markers && m.leg == LEG_REVIEW && !m.state.Declined? && m.pass == pass
  {
    if markers == [] then 0
    else
      var front, last := CurrentReviewPass(markers[..|markers| - 1]), markers[|markers| - 1];
      if last.leg == LEG_REVIEW && !last.state.Declined? && last.pass > front then last.pass else front
  }

  predicate IsFor(m: Marker, pass: int, leg: Leg) { m.pass == pass && m.leg == TextOf(leg) }

  predicate NewestAt(markers: seq<Marker>, pass: int, leg: Leg, i: int)
    requires 0 <= i < |markers|
  {
    IsFor(markers[i], pass, leg) && forall j :: i < j < |markers| ==> !IsFor(markers[j], pass, leg)
  }

  ghost predicate IsNewest(markers: seq<Marker>, pass: int, leg: Leg, m: Option<Marker>) {
    if m.Some? then exists i :: 0 <= i < |markers| && markers[i] == m.value && NewestAt(markers, pass, leg, i)
    else forall j :: 0 <= j < |markers| ==> !IsFor(markers[j], pass, leg)
  }

  lemma {:induction false} NewestOnto(front: seq<Marker>, last: Marker, pass: int, leg: Leg, m: Option<Marker>)
    requires IsNewest(front, pass, leg, m)
    ensures IsNewest(front + [last], pass, leg, if IsFor(last, pass, leg) then Some(last) else m)
  {
    var markers := front + [last];
    hide IsFor;
    assert markers[|front|] == last && forall j :: 0 <= j < |front| ==> markers[j] == front[j];
    if IsFor(last, pass, leg) {
      assert NewestAt(markers, pass, leg, |front|);
    } else if m.Some? {
      var i :| 0 <= i < |front| && front[i] == m.value && NewestAt(front, pass, leg, i);
      assert NewestAt(markers, pass, leg, i);
    }
  }

  /** The newest marker of one leg of one pass, whatever its state. */
  function MarkerFor(markers: seq<Marker>, pass: int, leg: Leg): (m: Option<Marker>)
    ensures IsNewest(markers, pass, leg, m)
  {
    if markers == [] then None
    else
      var front, last := markers[..|markers| - 1], markers[|markers| - 1];
      var m := MarkerFor(front, pass, leg);
      NewestOnto(front, last, pass, leg, m);
      assert front + [last] == markers;
      if IsFor(last, pass, leg) then Some(last) else m
  }

  /** The same, with an absent marker read as the zero one. */
  function MarkerOf(markers: seq<Marker>, pass: int, leg: Leg): Marker {
    var m := MarkerFor(markers, pass, leg);
    if m.Some? then m.value else NO_MARKER
  }

  lemma {:induction false} OneNewest(markers: seq<Marker>, pass: int, leg: Leg)
    ensures var m := MarkerFor(markers, pass, leg);
            && (m.Some? <==> exists k :: k in markers && IsFor(k, pass, leg))
            && (forall i :: 0 <= i < |markers| && NewestAt(markers, pass, leg, i) ==> m == Some(markers[i]))
            && (m.Some? ==> exists i :: 0 <= i < |markers| && NewestAt(markers, pass, leg, i) && markers[i] == m.value)
  {
    var m := MarkerFor(markers, pass, leg);
    hide MarkerFor, IsFor;
    if m.Some? {
      var i :| 0 <= i < |markers| && markers[i] == m.value && NewestAt(markers, pass, leg, i);
      forall j | 0 <= j < |markers| && NewestAt(markers, pass, leg, j) ensures j == i {
      }
    }
  }

  /** The newest marker of the leg in the pass is this one. */
  ghost predicate Newest(markers: seq<Marker>, pass: int, leg: Leg, m: Marker) {
    exists i :: 0 <= i < |markers| && NewestAt(markers, pass, leg, i) && markers[i] == m
  }

  lemma {:induction false} NewestIs(markers: seq<Marker>, pass: int, leg: Leg, m: Marker)
    ensures Newest(markers, pass, leg, m) <==> MarkerFor(markers, pass, leg) == Some(m)
    ensures MarkerFor(markers, pass, leg).None? ==> MarkerOf(markers, pass, leg) == NO_MARKER
    ensures MarkerFor(markers, pass, leg).Some? ==> MarkerOf(markers, pass, leg) == MarkerFor(markers, pass, leg).value
  {
    OneNewest(markers, pass, leg);
    hide MarkerFor, NewestAt, IsFor;
  }

  predicate CurrentPassComplete(markers: seq<Marker>, pass: int, leg: Leg) {
    exists i :: 0 <= i < |markers| && IsFor(markers[i], pass, leg) && markers[i].state.Complete?
  }

  /** A complete review marker whose coverage promise is kept. */
  predicate MarkerConverges(m: Marker) {
    m.state.Complete? && !m.coverageStopped && (m.version >= 2 ==> m.coveragePresent)
  }

  /* ---- how a pass ended ---- */

  datatype PassLabel = NoLabel | AwaitingReview | Converged | Halted

  datatype State = State(repo: string, pr: int, markers: seq<Marker>, labels: seq<string>, maxPasses: int,
                         minFix: string, draft: bool)

  const LABEL_STOP := "crossrev/stop"

  const VERDICT_BLOCKED := "blocked"
  const VERDICT_CONVERGED := "converged"

  /** What the loop reads through packages that are not part of this model: how
      many findings are actionable, how many resolutions are escalated, and the
      label a resolve pass ends with. */
  datatype Policy = Policy(actionable: (string, string) -> nat, escalations: string -> nat, passLabel: (Marker, nat) -> PassLabel)

  function Escalated(p: Policy, markers: seq<Marker>): nat {
    if markers == [] then 0
    else
      var last := markers[|markers| - 1];
      Escalated(p, markers[..|markers| - 1]) + if last.leg == LEG_RESOLVE then p.escalations(last.resolutions) else 0
  }

  lemma {:induction false} NoneEscalated(p: Policy, markers: seq<Marker>)
    ensures Escalated(p, markers) == 0 <==> forall m :: m in markers && m.leg == LEG_RESOLVE ==> p.escalations(m.resolutions) == 0
  {
    if markers != [] {
      var front, last := markers[..|markers| - 1], markers[|markers| - 1];
      assert front + [last] == markers;
      NoneEscalated(p, front);
      assert last in markers;
    }
  }

  /** The count adds up: each resolve marker gives its own, any other none. */
  lemma {:induction false} EscalatedAdds(p: Policy, a: seq<Marker>, m: Marker, b: seq<Marker>)
    ensures Escalated(p, [m]) == if m.leg == "resolve" then p.escalations(m.resolutions) else 0
    ensures Escalated(p, a + b) == Escalated(p, a) + Escalated(p, b)
  {
    assert [m][..0] == [];
    if b == [] {
      assert a + b == a;
    } else {
      assert (a + b)[..|a + b| - 1] == a + b[..|b| - 1];
      EscalatedAdds(p, a, m, b[..|b| - 1]);
    }
  }

  /** The line a cycle ends on. */
  datatype Ending =
    | ReviewerBlocked(pass: int) | EscalationStands(pass: int) | ReportedConverged(pass: int)
    | ResolverBlocked(pass: int) | StopApplied(pass: int) | LeftUnsettled(pass: int)
    | CapReached | CapWithoutStarting | ReviewUnfinished(pass: int) | PassResolved(pass: int)

  datatype Reading = Continues | Halts(e: Ending) | Finishes(e: Ending)

  /** The decision after a review leg. */
  function ReadReview(p: Policy, s: State, pass: int): Reading {
    var m := MarkerOf(s.markers, pass, Review);
    var verdict := if m.verdict == "" then VERDICT_BLOCKED else m.verdict;
    if verdict == VERDICT_BLOCKED then Halts(ReviewerBlocked(pass))
    else if verdict != VERDICT_CONVERGED && p.actionable(m.findings, s.minFix) != 0 then Continues
    else if verdict == VERDICT_CONVERGED && !MarkerConverges(m) then Continues
    else if verdict != VERDICT_CONVERGED && Escalated(p, s.markers) > 0 then Finishes(EscalationStands(pass))
    else Finishes(ReportedConverged(pass))
  }

  /** The decision after a resolve leg. */
  function ReadResolve(p: Policy, s: State, pass: int): Reading {
    var found := MarkerFor(s.markers, pass, Resolve);
    var m := MarkerOf(s.markers, pass, Resolve);
    if m.blocked then Halts(ResolverBlocked(pass))
    else if LABEL_STOP in s.labels then Halts(StopApplied(pass))
    else
      var ended := if found.Some? && m.state.Complete? then p.passLabel(m, Escalated(p, s.markers)) else NoLabel;
      if ended.Converged? then
        var review := MarkerFor(s.markers, pass, Review);
        if review.None? || !MarkerConverges(review.value) || review.value.verdict == VERDICT_BLOCKED then Continues
        else Finishes(ReportedConverged(pass))
      else if ended.Halted? then Halts(LeftUnsettled(pass))
      else Continues
  }

  /** A policy that finds nothing to act on and nothing escalated. */
  const NOTHING_LEFT := Policy((_, _) => 0, _ => 0, (_, _) => NoLabel)

  lemma {:induction false} NothingEscalated(markers: seq<Marker>)
    ensures Escalated(NOTHING_LEFT, markers) == 0
  {
    if markers != [] {
      NothingEscalated(markers[..|markers| - 1]);
    }
  }

  /** Whatever its findings come to, a review is reported converged only over a
      kept coverage promise exactly when its newest marker keeps it, or carries a
      verdict that is missing, `blocked` or `converged`. */
  lemma {:induction false} ReportKeepsCoverageExactlyWhen(s: State, pass: int)
    ensures var m := MarkerOf(s.markers, pass, Review);
            (forall p: Policy :: ReadReview(p, s, pass) == Finishes(ReportedConverged(pass)) ==> MarkerConverges(m)) <==>
            MarkerConverges(m) || m.verdict in {"", VERDICT_BLOCKED, VERDICT_CONVERGED}
  {
    var m := MarkerOf(s.markers, pass, Review);
    hide Escalated, MarkerConverges, MarkerOf;
    NothingEscalated(s.markers);
    if !MarkerConverges(m) && m.verdict !in {"", VERDICT_BLOCKED, VERDICT_CONVERGED} {
      assert ReadReview(NOTHING_LEFT, s, pass) == Finishes(ReportedConverged(pass));
    }
  }

  /** The case itself: a pass whose review stopped short of its coverage, with
      issues left but none at the severity to fix, is reported converged. */
  lemma {:induction false} ReportedWithoutCoverage()
    ensures var m := Marker(1, LEG_REVIEW, Complete, 2, "issues-remain", true, false, false, "[]", "", "");
            var s := State("o/r", 7, [m], [], 3, "high", false);
            && MarkerOf(s.markers, 1, Review) == m && !MarkerConverges(m)
            && ReadReview(NOTHING_LEFT, s, 1) == Finishes(ReportedConverged(1))
  {
    var m := Marker(1, LEG_REVIEW, Complete, 2, "issues-remain", true, false, false, "[]", "", "");
    NothingEscalated([m]);
    assert MarkerFor([m], 1, Review) == Some(m);
    assert "issues-remain" != VERDICT_BLOCKED && "issues-remain" != VERDICT_CONVERGED by {
      assert "issues-remain"[0] == 'i' && VERDICT_BLOCKED[0] == 'b' && VERDICT_CONVERGED[0] == 'c';
    }
  }

  /** A resolve pass is never reported converged over a review that did not
      complete with its coverage promise kept. */
  lemma {:induction false} ResolveConvergesOverReview(p: Policy, s: State, pass: int)
    requires ReadResolve(p, s, pass).Finishes?
    ensures var review, resolve := MarkerFor(s.markers, pass, Review), MarkerFor(s.markers, pass, Resolve);
            && review.Some? && MarkerConverges(review.value) && review.value.verdict != VERDICT_BLOCKED
            && resolve.Some? && resolve.value.state.Complete? && !resolve.value.blocked && LABEL_STOP !in s.labels
  {
    hide Escalated, MarkerFor, MarkerConverges;
  }
}
