/**
 The labels the automated loop runs on, a forge that can refuse any write, and
 which leg a label list says a pull request is waiting for.
 */
module Labels {
  import opened Text
  import opened Passes

  const AWAITING := "crossrev/awaiting-"
  const AWAITING_REVIEW := "crossrev/awaiting-review"
  const AWAITING_RESOLUTION := "crossrev/awaiting-resolution"
  const HALTED := "crossrev/halted"
  const RETRIED := "crossrev/watchdog-retried"
  const STOP := "crossrev/stop"

  function WaitOf(leg: Leg): string {
    match leg
    case Review => AWAITING_REVIEW
    case Resolve => AWAITING_RESOLUTION
  }

  /** The label a leg waits behind, whatever its text. */
  function AwaitingLabel(leg: string): string {
    if leg == LEG_REVIEW then WaitOf(Review) else if leg == LEG_RESOLVE then WaitOf(Resolve) else AWAITING + leg
  }

  /** Restarting a leg of that text puts one of the two waits back. */
  predicate PutsWait(leg: string) { AwaitingLabel(leg) == AWAITING_REVIEW || AwaitingLabel(leg) == AWAITING_RESOLUTION }

  lemma {:induction false} LegsWait(leg: Leg)
    ensures AwaitingLabel(TextOf(leg)) == WaitOf(leg) && PutsWait(TextOf(leg))
  {
    assert |LEG_REVIEW| == 6 && |LEG_RESOLVE| == 7;
  }

  /** Two texts name a leg, and a third one happens to spell a wait. */
  lemma {:induction false} PutsWaitExactlyWhen(leg: string)
    ensures PutsWait(leg) <==> leg == LEG_REVIEW || leg == LEG_RESOLVE || leg == "resolution"
  {
    assert AWAITING + "review" == AWAITING_REVIEW && AWAITING + "resolution" == AWAITING_RESOLUTION;
    assert (AWAITING + leg)[|AWAITING|..] == leg;
    assert AWAITING_REVIEW[|AWAITING|..] == "review" && AWAITING_RESOLUTION[|AWAITING|..] == "resolution";
  }

  lemma {:induction false} AwaitingIsOwn(leg: string)
    ensures StartsWith(AwaitingLabel(leg), AWAITING)
    ensures AwaitingLabel(leg) != HALTED && AwaitingLabel(leg) != RETRIED && AwaitingLabel(leg) != STOP
  {
    assert |HALTED| == 15 && |STOP| == 13 && |AWAITING| == 18;
    assert RETRIED[9] == 'w' && AWAITING[9] == 'a';
    assert AWAITING_REVIEW[..|AWAITING|] == AWAITING && AWAITING_RESOLUTION[..|AWAITING|] == AWAITING;
  }

  /* ---- substrings ---- */

  predicate ContainsAt(s: string, sub: string, i: int) { 0 <= i <= |s| - |sub| && s[i..i + |sub|] == sub }

  predicate Contains(s: string, sub: string) { exists i :: 0 <= i <= |s| - |sub| && ContainsAt(s, sub, i) }

  predicate StartsWith(s: string, prefix: string) { |prefix| <= |s| && s[..|prefix|] == prefix }

  lemma {:induction false} ContainsLeft(a: string, b: string, sub: string)
    requires Contains(a, sub)
    ensures Contains(a + b, sub)
  {
    var i :| 0 <= i <= |a| - |sub| && ContainsAt(a, sub, i);
    assert (a + b)[i..i + |sub|] == a[i..i + |sub|];
    assert ContainsAt(a + b, sub, i);
  }

  lemma {:induction false} ContainsRight(a: string, b: string, sub: string)
    requires Contains(b, sub)
    ensures Contains(a + b, sub)
  {
    var i :| 0 <= i <= |b| - |sub| && ContainsAt(b, sub, i);
    assert (a + b)[|a| + i..|a| + i + |sub|] == b[i..i + |sub|];
    assert ContainsAt(a + b, sub, |a| + i);
  }

  lemma {:induction false} FoundInside(s: string, sub: string, i: int)
    requires ContainsAt(s, sub, i)
    ensures forall m :: i <= m < i + |sub| ==> s[m] in sub
  {
    assert forall m :: i <= m < i + |sub| ==> s[m] == sub[m - i];
  }

  lemma {:induction false} ContainsAcross(a: string, b: string, sub: string)
    requires sub != "" && ' ' !in sub && Contains(a + " " + b, sub)
    ensures Contains(a, sub) || Contains(b, sub)
  {
    var s := a + " " + b;
    var i :| 0 <= i <= |s| - |sub| && ContainsAt(s, sub, i);
    assert s[|a|] == ' ';
    FoundInside(s, sub, i);
    assert |a| < i || i + |sub| <= |a|;
    if i + |sub| <= |a| {
      assert a[i..i + |sub|] == s[i..i + |sub|];
      assert ContainsAt(a, sub, i);
    } else {
      var j := i - |a| - 1;
      assert b[j..j + |sub|] == s[i..i + |sub|];
      assert ContainsAt(b, sub, j);
    }
  }

  /** Searching the space-joined list finds a spaceless text exactly when one of
      the labels contains it. */
  lemma {:induction false} JoinContains(labels: seq<string>, sub: string)
    requires sub != "" && ' ' !in sub
    ensures Contains(Join(labels, ' '), sub) <==> exists l :: l in labels && Contains(l, sub)
  {
    if labels == [] {
    } else if |labels| == 1 {
      assert Join(labels, ' ') == labels[0];
    } else {
      var head, tail := labels[0], labels[1..];
      var rest := Join(tail, ' ');
      assert Join(labels, ' ') == head + " " + rest;
      JoinContains(tail, sub);
      hide Contains, Join;
      assert forall l :: l in labels <==> l == head || l in tail;
      if Contains(head, sub) {
        ContainsLeft(head, " " + rest, sub);
        assert head + (" " + rest) == head + " " + rest;
      }
      if Contains(rest, sub) {
        ContainsRight(head + " ", rest, sub);
      }
      if Contains(head + " " + rest, sub) {
        ContainsAcross(head, rest, sub);
      }
    }
  }

  /* ---- which leg ---- */

  /** The leg a sweep reads off a label list. */
  function LegWaitedFor(labels: seq<string>): Leg {
    if Contains(Join(labels, ' '), AWAITING_RESOLUTION) then Resolve else Review
  }

  /** A label the loop did not write that reads as one of its waits. */
  predicate Foreign(l: string) {
    l != AWAITING_REVIEW && l != AWAITING_RESOLUTION && (StartsWith(l, AWAITING) || Contains(l, AWAITING_RESOLUTION))
  }

  predicate NoForeign(labels: seq<string>) { forall l :: l in labels ==> !Foreign(l) }

  /** The list read that hands the sweep its pull requests. */
  predicate Listed(labels: seq<string>) { exists l :: l in labels && StartsWith(l, AWAITING) }

  lemma {:induction false} ContainsItself(s: string)
    ensures Contains(s, s)
  {
    assert ContainsAt(s, s, 0);
  }

  lemma {:induction false} ReviewHoldsNoResolution()
    ensures !Contains(AWAITING_REVIEW, AWAITING_RESOLUTION)
  {
  }

  /** A sweep reads the resolve leg exactly when some label contains its name. */
  lemma {:induction false} LegWaitedForIs(labels: seq<string>)
    ensures LegWaitedFor(labels) == Resolve <==> exists l :: l in labels && Contains(l, AWAITING_RESOLUTION)
    ensures AWAITING_RESOLUTION in labels ==> LegWaitedFor(labels) == Resolve
    ensures NoForeign(labels) ==> (LegWaitedFor(labels) == Resolve <==> AWAITING_RESOLUTION in labels)
  {
    JoinContains(labels, AWAITING_RESOLUTION);
    ContainsItself(AWAITING_RESOLUTION);
    ReviewHoldsNoResolution();
    hide Contains, Join, StartsWith;
  }

  /* ---- writing labels ---- */

  /** A label added is there once; adding one already there changes nothing. */
  function With(labels: seq<string>, l: string): seq<string> { if l in labels then labels else labels + [l] }

  function Without(labels: seq<string>, l: string): seq<string> {
    if labels == [] then []
    else if labels[0] == l then Without(labels[1..], l)
    else [labels[0]] + Without(labels[1..], l)
  }

  lemma {:induction false} WithHolds(labels: seq<string>, l: string, k: string)
    ensures k in With(labels, l) <==> k in labels || k == l
  {
  }

  lemma {:induction false} WithoutHolds(labels: seq<string>, l: string, k: string)
    ensures k in Without(labels, l) <==> k in labels && k != l
  {
    if labels != [] {
      WithoutHolds(labels[1..], l, k);
    }
  }
}
