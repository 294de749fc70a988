/**
 The scheduled sweep and the restart command: ordered label writes against a
 forge that can refuse any of them.
 */
module Watchdog {
  import opened Text
  import opened Passes
  import opened Labels

  datatype Write = Add(pr: int, name: string) | Remove(pr: int, name: string) | Comment(pr: int)

  /** The labels of every pull request and the writes attempted so far. */
  datatype Store = Store(labels: map<int, seq<string>>, log: seq<Write>)

  /** Whether a write is refused, given every write attempted before it. */
  type Refuses = (seq<Write>, Write) -> bool

  function LabelsOf(s: Store, pr: int): seq<string> { if pr in s.labels then s.labels[pr] else [] }

  function Accepted(f: Refuses, s: Store, w: Write): bool { !f(s.log, w) }

  function Attempt(f: Refuses, s: Store, w: Write): Store {
    var log := s.log + [w];
    if f(s.log, w) then Store(s.labels, log)
    else
      match w
      case Add(pr, name) => Store(s.labels[pr := With(LabelsOf(s, pr), name)], log)
      case Remove(pr, name) => Store(s.labels[pr := Without(LabelsOf(s, pr), name)], log)
      case Comment(_) => Store(s.labels, log)
  }

  class Forge {
    const refuses: Refuses
    var labels: map<int, seq<string>>
    var log: seq<Write>

    constructor (refuses: Refuses, labels: map<int, seq<string>>)
      ensures this.refuses == refuses && Current() == Store(labels, [])
    {
      this.refuses, this.labels, this.log := refuses, labels, [];
    }

    function Current(): Store
      reads this
    {
      Store(labels, log)
    }

    method LabelAdd(pr: int, name: string) returns (ok: bool)
      modifies this
      ensures Current() == Attempt(refuses, old(Current()), Add(pr, name)) && ok == Accepted(refuses, old(Current()), Add(pr, name))
    {
      ok := !refuses(log, Add(pr, name));
      log := log + [Add(pr, name)];
      if ok {
        labels := labels[pr := With(if pr in labels then labels[pr] else [], name)];
      }
    }

    /** A refused removal is not reported. */
    method LabelRemove(pr: int, name: string)
      modifies this
      ensures Current() == Attempt(refuses, old(Current()), Remove(pr, name))
    {
      var ok := !refuses(log, Remove(pr, name));
      log := log + [Remove(pr, name)];
      if ok {
        labels := labels[pr := Without(if pr in labels then labels[pr] else [], name)];
      }
    }

    method CommentCreate(pr: int) returns (ok: bool)
      modifies this
      ensures Current() == Attempt(refuses, old(Current()), Comment(pr)) && ok == Accepted(refuses, old(Current()), Comment(pr))
    {
      ok := !refuses(log, Comment(pr));
      log := log + [Comment(pr)];
    }
  }

  /* ---- retrying one leg ---- */

  datatype Outcome = Refired | GaveUp | Failed

  /** Re-fires a leg, or gives up on one that was re-fired before. */
  function Retry(f: Refuses, s: Store, pr: int, listed: seq<string>, leg: Leg): (Store, Outcome) {
    var awaiting := WaitOf(leg);
    if RETRIED in listed then
      var removed := Attempt(f, s, Remove(pr, awaiting));
      var halted := Attempt(f, removed, Add(pr, HALTED));
      if !Accepted(f, removed, Add(pr, HALTED)) then (halted, Failed)
      else (Attempt(f, halted, Comment(pr)), if Accepted(f, halted, Comment(pr)) then GaveUp else Failed)
    else
      var marked := Attempt(f, s, Add(pr, RETRIED));
      if !Accepted(f, s, Add(pr, RETRIED)) then (marked, Failed)
      else
        var removed := Attempt(f, marked, Remove(pr, awaiting));
        (Attempt(f, removed, Add(pr, awaiting)), if Accepted(f, removed, Add(pr, awaiting)) then Refired else Failed)
  }

  method RetryLeg(forge: Forge, pr: int, listed: seq<string>, leg: Leg) returns (outcome: Outcome)
    modifies forge
    ensures (forge.Current(), outcome) == Retry(forge.refuses, old(forge.Current()), pr, listed, leg)
  {
    var awaiting := WaitOf(leg);
    hide Attempt, Accepted;
    if RETRIED in listed {
      forge.LabelRemove(pr, awaiting);
      var ok := forge.LabelAdd(pr, HALTED);
      if !ok {
        return Failed;
      }
      ok := forge.CommentCreate(pr);
      return if ok then GaveUp else Failed;
    }
    var ok := forge.LabelAdd(pr, RETRIED);
    if !ok {
      return Failed;
    }
    forge.LabelRemove(pr, awaiting);
    ok := forge.LabelAdd(pr, awaiting);
    return if ok then Refired else Failed;
  }

  /* ---- the sweep ---- */

  datatype Waiting = Waiting(pr: int, labels: seq<string>, draft: bool)

  datatype Summary = Summary(checked: nat, retried: nat, halted: nat, drafts: nat)

  /** The clock, the flag and the markers' times one sweep reads. */
  datatype Clock = Clock(now: int, timeout: int, refusesTimeout: bool, times: int -> seq<int>)

  const DEFAULT_TIMEOUT := 1800

  function TimeoutOf(c: Clock): int { if c.timeout <= 0 then DEFAULT_TIMEOUT else c.timeout }

  /** The pull request's leg counts as stuck: it never wrote a marker, or its
      newest one is old enough. */
  predicate Stuck(c: Clock, pr: int) {
    var times := c.times(pr);
    times == [] || c.now - times[|times| - 1] >= TimeoutOf(c)
  }

  datatype Sweep = Sweep(summary: Summary, store: Store, stopped: bool)

  /** The sweep stops at a timeout it cannot read, where it would first use it. */
  predicate MeetsTimeout(c: Clock, pr: int) { c.times(pr) != [] && c.refusesTimeout }

  function Counted(s: Summary, outcome: Outcome): Summary {
    match outcome
    case Refired => s.(retried := s.retried + 1)
    case GaveUp => s.(halted := s.halted + 1)
    case Failed => s
  }

  function SweepOne(f: Refuses, c: Clock, before: Sweep, w: Waiting): Sweep {
    var s := before.summary.(checked := before.summary.checked + 1);
    if before.stopped then before
    else if STOP in w.labels then before.(summary := s)
    else if w.draft then before.(summary := s.(drafts := s.drafts + 1))
    else if MeetsTimeout(c, w.pr) then before.(summary := s, stopped := true)
    else if !Stuck(c, w.pr) then before.(summary := s)
    else
      var (store, outcome) := Retry(f, before.store, w.pr, w.labels, LegWaitedFor(w.labels));
      Sweep(Counted(s, outcome), store, outcome.Failed?)
  }

  function SweepAll(f: Refuses, c: Clock, before: Sweep, waiting: seq<Waiting>): Sweep {
    if waiting == [] then before
    else SweepOne(f, c, SweepAll(f, c, before, waiting[..|waiting| - 1]), waiting[|waiting| - 1])
  }

  /** One pull request of the sweep. */
  method Check(forge: Forge, c: Clock, before: Summary, w: Waiting) returns (summary: Summary, stopped: bool)
    modifies forge
    ensures Sweep(summary, forge.Current(), stopped) == SweepOne(forge.refuses, c, Sweep(before, old(forge.Current()), false), w)
  {
    hide Retry, LegWaitedFor;
    summary, stopped := before.(checked := before.checked + 1), false;
    if STOP in w.labels {
      return;
    }
    var leg := LegWaitedFor(w.labels);
    if w.draft {
      summary := summary.(drafts := summary.drafts + 1);
      return;
    }
    var times := c.times(w.pr);
    if times != [] {
      if c.refusesTimeout {
        stopped := true;
        return;
      }
      if c.now - times[|times| - 1] < TimeoutOf(c) {
        return;
      }
    }
    var outcome := RetryLeg(forge, w.pr, w.labels, leg);
    summary, stopped := Counted(summary, outcome), outcome.Failed?;
  }

  method Run(forge: Forge, c: Clock, author: string, waiting: seq<Waiting>) returns (summary: Summary, stopped: bool)
    modifies forge
    ensures author == "" ==> stopped && summary == Summary(0, 0, 0, 0) && forge.Current() == old(forge.Current())
    ensures author != "" ==>
              Sweep(summary, forge.Current(), stopped) ==
              SweepAll(forge.refuses, c, Sweep(Summary(0, 0, 0, 0), old(forge.Current()), false), waiting)
  {
    summary, stopped := Summary(0, 0, 0, 0), false;
    if author == "" {
      return summary, true;
    }
    hide SweepOne, SweepAll;
    ghost var start := Sweep(summary, forge.Current(), false);
    assert waiting[..0] == [];
    SweepNone(forge.refuses, c, start);
    for i := 0 to |waiting|
      invariant !stopped
      invariant Sweep(summary, forge.Current(), false) == SweepAll(forge.refuses, c, start, waiting[..i])
    {
      SweepNext(forge.refuses, c, start, waiting, i);
      summary, stopped := Check(forge, c, summary, waiting[i]);
      if stopped {
        SweepStops(forge.refuses, c, start, waiting, i + 1);
        return;
      }
    }
    assert waiting[..|waiting|] == waiting;
  }

  lemma {:induction false} SweepNone(f: Refuses, c: Clock, before: Sweep)
    ensures SweepAll(f, c, before, []) == before
  {
  }

  lemma {:induction false} SweepNext(f: Refuses, c: Clock, before: Sweep, waiting: seq<Waiting>, i: nat)
    requires i < |waiting|
    ensures SweepAll(f, c, before, waiting[..i + 1]) == SweepOne(f, c, SweepAll(f, c, before, waiting[..i]), waiting[i])
  {
    assert waiting[..i + 1][..i] == waiting[..i];
    hide SweepOne;
  }

  lemma {:induction false} SweepStops(f: Refuses, c: Clock, before: Sweep, waiting: seq<Waiting>, i: nat)
    requires i <= |waiting|
    ensures SweepAll(f, c, before, waiting[..i]).stopped ==> SweepAll(f, c, before, waiting) == SweepAll(f, c, before, waiting[..i])
    decreases |waiting|
  {
    hide Retry, MeetsTimeout, Stuck, LegWaitedFor;
    if i == |waiting| {
      assert waiting[..i] == waiting;
    } else {
      assert waiting[..|waiting| - 1][..i] == waiting[..i];
      SweepStops(f, c, before, waiting[..|waiting| - 1], i);
    }
  }

  /* ---- what a sweep leaves alone ---- */

  predicate About(w: Write, pr: int) { w.pr == pr }

  /** The writes attempted after `before` are all about one pull request, whose
      labels are the only ones to change. */
  ghost predicate WroteOnly(before: Store, after: Store, pr: int) {
    && |before.log| <= |after.log| && after.log[..|before.log|] == before.log
    && (forall i :: |before.log| <= i < |after.log| ==> About(after.log[i], pr))
    && (forall q :: q != pr ==> LabelsOf(after, q) == LabelsOf(before, q))
  }

  lemma {:induction false} AttemptWroteOnly(f: Refuses, before: Store, s: Store, w: Write)
    requires WroteOnly(before, s, w.pr)
    ensures WroteOnly(before, Attempt(f, s, w), w.pr)
  {
    hide With, Without;
  }

  lemma {:induction false} RetryWroteOnly(f: Refuses, s: Store, pr: int, listed: seq<string>, leg: Leg)
    ensures WroteOnly(s, Retry(f, s, pr, listed, leg).0, pr)
  {
    hide Attempt, Accepted, LabelsOf;
    assert WroteOnly(s, s, pr);
    hide WroteOnly;
    var awaiting := WaitOf(leg);
    var removed := Attempt(f, s, Remove(pr, awaiting));
    var marked := Attempt(f, s, Add(pr, RETRIED));
    AttemptWroteOnly(f, s, s, Remove(pr, awaiting));
    AttemptWroteOnly(f, s, removed, Add(pr, HALTED));
    AttemptWroteOnly(f, s, Attempt(f, removed, Add(pr, HALTED)), Comment(pr));
    AttemptWroteOnly(f, s, s, Add(pr, RETRIED));
    AttemptWroteOnly(f, s, marked, Remove(pr, awaiting));
    AttemptWroteOnly(f, s, Attempt(f, marked, Remove(pr, awaiting)), Add(pr, awaiting));
  }

  /** A sweep may write to a pull request only when its list entry carries no
      stop label and is no draft, and its leg is stuck. */
  predicate MayWrite(c: Clock, w: Waiting) { STOP !in w.labels && !w.draft && Stuck(c, w.pr) }

  lemma {:induction false} SweepOneLeavesAlone(f: Refuses, c: Clock, before: Sweep, w: Waiting, pr: int)
    requires w.pr == pr ==> !MayWrite(c, w)
    ensures Left(before.store, SweepOne(f, c, before, w).store, pr)
  {
    RetryWroteOnly(f, before.store, w.pr, w.labels, LegWaitedFor(w.labels));
    hide Retry, LegWaitedFor, LabelsOf, Stuck;
  }

  /** Nothing was written to the pull request, and its labels are what they were. */
  ghost predicate Left(before: Store, after: Store, pr: int) {
    && |before.log| <= |after.log| && after.log[..|before.log|] == before.log
    && LabelsOf(after, pr) == LabelsOf(before, pr)
    && forall i :: |before.log| <= i < |after.log| ==> !About(after.log[i], pr)
  }

  lemma {:induction false} LeftTwice(a: Store, b: Store, c: Store, pr: int)
    requires Left(a, b, pr) && Left(b, c, pr)
    ensures Left(a, c, pr)
  {
    hide LabelsOf, About;
    forall i | |a.log| <= i < |c.log| ensures !About(c.log[i], pr) {
      if i < |b.log| {
        assert c.log[..|b.log|][i] == c.log[i];
      }
    }
    assert c.log[..|a.log|] == c.log[..|b.log|][..|a.log|];
  }

  /** No sweep writes to a pull request that is stopped, a draft, inside its
      timeout or not on the list, whatever the forge refuses. */
  lemma {:induction false} SweepLeavesAlone(f: Refuses, c: Clock, before: Sweep, waiting: seq<Waiting>, pr: int)
    requires forall w :: w in waiting && w.pr == pr ==> !MayWrite(c, w)
    ensures Left(before.store, SweepAll(f, c, before, waiting).store, pr)
  {
    if waiting != [] {
      var front, w := waiting[..|waiting| - 1], waiting[|waiting| - 1];
      SweepLeavesAlone(f, c, before, front, pr);
      assert w in waiting;
      hide SweepOne, Left;
      SweepOneLeavesAlone(f, c, SweepAll(f, c, before, front), w, pr);
      LeftTwice(before.store, SweepAll(f, c, before, front).store, SweepAll(f, c, before, waiting).store, pr);
    } else {
      hide LabelsOf;
    }
  }

  /** How long ago the pull request's newest marker was written. */
  function Idle(c: Clock, pr: int): int
    requires c.times(pr) != []
  {
    c.now - c.times(pr)[|c.times(pr)| - 1]
  }

  /** A pull request whose newest marker is younger than the timeout, half an hour
      when none is set, is not written to. */
  lemma {:induction false} TimelyIsLeftAlone(f: Refuses, c: Clock, before: Sweep, waiting: seq<Waiting>, pr: int)
    requires c.times(pr) != [] && (if c.timeout > 0 then Idle(c, pr) < c.timeout else Idle(c, pr) < 1800)
    ensures Left(before.store, SweepAll(f, c, before, waiting).store, pr)
  {
    hide SweepAll, Left;
    SweepLeavesAlone(f, c, before, waiting, pr);
  }

  /** And one that wrote none, or none since the timeout, is retried: the sweep asks
      the forge for something about it, unless it stopped before, was told to, or the
      pull request is a draft. */
  lemma {:induction false} IdleIsRetried(f: Refuses, c: Clock, before: Sweep, w: Waiting)
    requires !before.stopped && STOP !in w.labels && !w.draft
    requires c.times(w.pr) == [] ||
             (!c.refusesTimeout && if c.timeout > 0 then Idle(c, w.pr) >= c.timeout else Idle(c, w.pr) >= 1800)
    ensures var after := SweepOne(f, c, before, w).store;
            |after.log| > |before.store.log| && after.log[|before.store.log|].pr == w.pr
  {
    hide LabelsOf, With, Without, LegWaitedFor;
  }

  /* ---- what a sweep counts ---- */

  /** The entries a sweep passes over as drafts. */
  function Drafts(waiting: seq<Waiting>): nat {
    if waiting == [] then 0
    else
      var w := waiting[|waiting| - 1];
      Drafts(waiting[..|waiting| - 1]) + if STOP !in w.labels && w.draft then 1 else 0
  }

  /** The entries whose leg it retries or gives up on, by whether they carry its
      mark. */
  function Acted(c: Clock, waiting: seq<Waiting>, marked: bool): nat {
    if waiting == [] then 0
    else
      var w := waiting[|waiting| - 1];
      Acted(c, waiting[..|waiting| - 1], marked) + if MayWrite(c, w) && (RETRIED in w.labels) == marked then 1 else 0
  }

  /** The counters of a sweep that was not stopped: every entry checked, every draft
      that is not stopped skipped as one, and every stuck leg either re-fired or, when
      it carries the mark already, given up on. */
  lemma {:induction false} SweepCounts(f: Refuses, c: Clock, before: Sweep, waiting: seq<Waiting>)
    requires !SweepAll(f, c, before, waiting).stopped
    ensures !before.stopped
    ensures var s, was := SweepAll(f, c, before, waiting).summary, before.summary;
            && s.checked == was.checked + |waiting| && s.drafts == was.drafts + Drafts(waiting)
            && s.retried == was.retried + Acted(c, waiting, false) && s.halted == was.halted + Acted(c, waiting, true)
  {
    if waiting != [] {
      var front, w := waiting[..|waiting| - 1], waiting[|waiting| - 1];
      var middle := SweepAll(f, c, before, front);
      hide SweepOne, MayWrite;
      OneCounts(f, c, middle, w);
      SweepCounts(f, c, before, front);
    }
  }

  lemma {:induction false} OneCounts(f: Refuses, c: Clock, before: Sweep, w: Waiting)
    requires !SweepOne(f, c, before, w).stopped
    ensures !before.stopped
    ensures var s, was := SweepOne(f, c, before, w).summary, before.summary;
            && s.checked == was.checked + 1
            && s.drafts == was.drafts + (if STOP !in w.labels && w.draft then 1 else 0)
            && s.retried == was.retried + (if MayWrite(c, w) && RETRIED !in w.labels then 1 else 0)
            && s.halted == was.halted + (if MayWrite(c, w) && RETRIED in w.labels then 1 else 0)
  {
    hide Attempt, Accepted, LegWaitedFor, Stuck;
  }
}
