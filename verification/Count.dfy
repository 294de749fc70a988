/**
 The daily count: comments read a page at a time, distinct pull requests
 counted until a short page or the cap.
 */
module Count {
  import opened Text
  import opened Passes

  datatype Stamp = Stamp(leg: string, state: PassState, ts: int)

  /** `marker` is the pass marker the body carries, if one decodes. */
  datatype Comment = Comment(author: string, marker: Option<Stamp>, url: string)

  datatype DailyCount = DailyCount(author: string, cutoff: int, cap: int, currentPr: nat, currentMarkers: seq<Stamp>)

  predicate CountsAsReview(m: Stamp, cutoff: int) { m.leg == LEG_REVIEW && !m.state.Declined? && m.ts > cutoff }

  predicate HasSuffix(s: string, suffix: string) { |suffix| <= |s| && s[|s| - |suffix|..] == suffix }

  function CurrentSuffix(req: DailyCount): string { "/" + Itoa(req.currentPr) }

  /** A trusted review comment on another pull request, inside the window. */
  predicate Counts(req: DailyCount, c: Comment) {
    && c.author == req.author && c.marker.Some? && CountsAsReview(c.marker.value, req.cutoff)
    && c.url != "" && !HasSuffix(c.url, CurrentSuffix(req))
  }

  function Urls(req: DailyCount, comments: seq<Comment>): set<string> {
    set c | c in comments && Counts(req, c) :: c.url
  }

  predicate AlreadyCounted(req: DailyCount) {
    exists m :: m in req.currentMarkers && CountsAsReview(m, req.cutoff)
  }

  /** The whole specification: how many distinct other pull requests carry a
      counting marker, capped, and none when the current one already counts. */
  function Expected(req: DailyCount, all: seq<Comment>): int {
    if AlreadyCounted(req) then 0
    else
      var n := |Urls(req, all)|;
      if req.cap > 0 && n >= req.cap then req.cap else n
  }

  const PER_PAGE: nat := 100

  /** The comments cut into full pages and one short last one. */
  function PageOf(all: seq<Comment>, page: nat): seq<Comment>
    requires page > 0
  {
    var from := PER_PAGE * (page - 1);
    if from >= |all| then [] else if |all| - from < PER_PAGE then all[from..] else all[from..from + PER_PAGE]
  }

  /** The count, or the first page that could not be read. */
  datatype Outcome = Counted(n: int) | Unread(page: nat)

  lemma {:induction false} UrlsJoin(req: DailyCount, a: seq<Comment>, b: seq<Comment>)
    ensures Urls(req, a + b) == Urls(req, a) + Urls(req, b)
  {
    hide Counts;
  }

  lemma {:induction false} UrlsNext(req: DailyCount, front: seq<Comment>, c: Comment)
    ensures Urls(req, front + [c]) == if Counts(req, c) then Urls(req, front) + {c.url} else Urls(req, front)
  {
    UrlsJoin(req, front, [c]);
    assert Urls(req, [c]) == if Counts(req, c) then {c.url} else {};
    hide Counts, Urls;
  }

  /** The elements of a list seen once each. */
  ghost predicate Lists(seen: seq<string>, urls: set<string>) {
    (forall u :: u in seen <==> u in urls) && |seen| == |urls|
  }

  lemma {:induction false} ListsNext(seen: seq<string>, urls: set<string>, url: string)
    requires Lists(seen, urls)
    ensures url !in seen ==> Lists(seen + [url], urls + {url})
    ensures url in seen ==> urls + {url} == urls
  {
  }

  /** The pages before one hold what came before it. */
  lemma {:induction false} PageEnds(all: seq<Comment>, page: nat)
    requires page > 0 && PER_PAGE * (page - 1) <= |all|
    ensures var from := PER_PAGE * (page - 1);
            && |PageOf(all, page)| <= |all| - from && all[..from] + PageOf(all, page) == all[..from + |PageOf(all, page)|]
            && (|PageOf(all, page)| < PER_PAGE ==> from + |PageOf(all, page)| == |all|)
            && |PageOf(all, page)| <= PER_PAGE
  {
  }

  method PRsReviewedToday(req: DailyCount, all: seq<Comment>, unreadable: nat -> bool) returns (r: Outcome)
    ensures r.Counted? ==> r.n == Expected(req, all)
    ensures r.Unread? ==> unreadable(r.page) && !AlreadyCounted(req)
  {
    for i := 0 to |req.currentMarkers|
      invariant forall j :: 0 <= j < i ==> !CountsAsReview(req.currentMarkers[j], req.cutoff)
    {
      if CountsAsReview(req.currentMarkers[i], req.cutoff) {
        return Counted(0);
      }
    }
    assert !AlreadyCounted(req);
    hide AlreadyCounted, CountsAsReview, Urls, Counts, Lists, PageOf, Expected;
    var seen: seq<string>, page: nat := [], 1;
    NothingListed(req);
    assert all[..0] == [];
    while true
      invariant page > 0 && PER_PAGE * (page - 1) <= |all|
      invariant Lists(seen, Urls(req, all[..PER_PAGE * (page - 1)]))
      decreases |all| - PER_PAGE * (page - 1)
    {
      if unreadable(page) {
        return Unread(page);
      }
      var comments := PageOf(all, page);
      PageEnds(all, page);
      ghost var before := all[..PER_PAGE * (page - 1)];
      assert comments[..0] == [] && before + [] == before;
      for i := 0 to |comments|
        invariant Lists(seen, Urls(req, before + comments[..i]))
      {
        var c := comments[i];
        SeenNext(req, before, comments, i, seen);
        if !Counts(req, c) {
          continue;
        }
        if c.url !in seen {
          seen := seen + [c.url];
        }
      }
      assert comments[..|comments|] == comments;
      PageCounts(req, all, page, seen);
      if req.cap > 0 && |seen| >= req.cap {
        return Counted(req.cap);
      }
      if |comments| < PER_PAGE {
        return Counted(|seen|);
      }
      page := page + 1;
    }
  }

  /** What is known once a page has been read through. */
  lemma {:induction false} PageCounts(req: DailyCount, all: seq<Comment>, page: nat, seen: seq<string>)
    requires page > 0 && PER_PAGE * (page - 1) <= |all| && !AlreadyCounted(req)
    requires Lists(seen, Urls(req, all[..PER_PAGE * (page - 1)] + PageOf(all, page)))
    ensures req.cap > 0 && |seen| >= req.cap ==> Expected(req, all) == req.cap
    ensures |PageOf(all, page)| < PER_PAGE && !(req.cap > 0 && |seen| >= req.cap) ==> Expected(req, all) == |seen|
    ensures |PageOf(all, page)| >= PER_PAGE ==>
              PER_PAGE * page <= |all| && Lists(seen, Urls(req, all[..PER_PAGE * page]))
  {
    PageEnds(all, page);
    var n := PER_PAGE * (page - 1) + |PageOf(all, page)|;
    hide AlreadyCounted, Urls, Lists, PageOf;
    ListedCount(req, seen, all, n);
    assert all[..|all|] == all;
  }

  lemma {:induction false} NothingListed(req: DailyCount)
    ensures Lists([], Urls(req, []))
  {
  }

  lemma {:induction false} SeenNext(req: DailyCount, before: seq<Comment>, comments: seq<Comment>, i: nat,
      seen: seq<string>)
    requires i < |comments| && Lists(seen, Urls(req, before + comments[..i]))
    ensures var c := comments[i];
            Lists(if Counts(req, c) && c.url !in seen then seen + [c.url] else seen, Urls(req, before + comments[..i + 1]))
  {
    hide Counts, Urls, Lists;
    var c := comments[i];
    assert before + comments[..i + 1] == before + comments[..i] + [c];
    UrlsNext(req, before + comments[..i], c);
    ListsNext(seen, Urls(req, before + comments[..i]), c.url);
  }

  /** A prefix never holds more pull requests than the whole list. */
  lemma {:induction false} ListedCount(req: DailyCount, seen: seq<string>, all: seq<Comment>, n: nat)
    requires n <= |all| && Lists(seen, Urls(req, all[..n]))
    ensures |seen| == |Urls(req, all[..n])| <= |Urls(req, all)|
  {
    assert all == all[..n] + all[n..];
    UrlsJoin(req, all[..n], all[n..]);
    hide Urls;
    SubsetSize(Urls(req, all[..n]), Urls(req, all));
  }

  lemma {:induction false} SubsetSize(a: set<string>, b: set<string>)
    requires a <= b
    ensures |a| <= |b|
  {
    assert b == a + (b - a);
  }

  /** Another pull request counts: a comment of the trusted author on it carries a
      review marker that was not declined and is newer than the cutoff. */
  ghost predicate Reviewed(req: DailyCount, all: seq<Comment>, url: string) {
    exists c :: c in all && c.url == url && c.author == req.author && c.marker.Some?
      && c.marker.value.leg == "review" && c.marker.value.state != Declined && c.marker.value.ts > req.cutoff
  }

  /** The count is the number of addresses, the current pull request's own and the
      empty one aside, that a counting comment stands on, held at a cap above zero;
      and it is nothing when the current one already carries a counting marker. */
  lemma {:induction false} ExpectedIs(req: DailyCount, all: seq<Comment>) returns (urls: set<string>)
    ensures forall u :: u in urls <==> u != "" && !HasSuffix(u, "/" + Itoa(req.currentPr)) && Reviewed(req, all, u)
    ensures var own := exists m :: m in req.currentMarkers && m.leg == "review" && m.state != Declined && m.ts > req.cutoff;
            Expected(req, all) == if own then 0 else if req.cap > 0 then Min(req.cap, |urls|) else |urls|
  {
    urls := Urls(req, all);
    hide HasSuffix;
  }

  /** The count does not depend on the order of the comments. */
  lemma {:induction false} CountIgnoresOrder(req: DailyCount, a: seq<Comment>, b: seq<Comment>)
    requires multiset(a) == multiset(b)
    ensures Expected(req, a) == Expected(req, b)
  {
    hide Counts, AlreadyCounted;
    forall c ensures c in a <==> c in b {
      assert c in a <==> c in multiset(a);
      assert c in b <==> c in multiset(b);
    }
    assert Urls(req, a) == Urls(req, b);
  }

  lemma {:induction false} LastSegment(base: string, a: string, b: string)
    requires '/' !in a && '/' !in b
    ensures HasSuffix(base + "/" + a, "/" + b) <==> a == b
  {
    var s := base + "/" + a;
    if HasSuffix(s, "/" + b) {
      var head := s[..|s| - |b| - 1];
      assert s == head + "/" + b;
      SplitAppend(base, '/', a);
      SplitAppend(head, '/', b);
      SplitOne(a, '/');
      SplitOne(b, '/');
      hide Split;
      assert (Split(base, '/') + [a])[|Split(base, '/')|] == (Split(head, '/') + [b])[|Split(head, '/')|];
    }
  }

  lemma {:induction false} DigitsFree(n: nat)
    ensures '/' !in Digits(n)
  {
    assert AllDigits(Digits(n));
    hide Digits;
  }

  /** A comment's pull request is the current one exactly when the number its
      address ends in is the current number. */
  lemma {:induction false} SuffixIsNumber(base: string, n: nat, req: DailyCount)
    ensures HasSuffix(base + "/" + Itoa(n), CurrentSuffix(req)) <==> n == req.currentPr
  {
    DigitsFree(n);
    DigitsFree(req.currentPr);
    LastSegment(base, Digits(n), Digits(req.currentPr));
    assert Value(Digits(n)) == n && Value(Digits(req.currentPr)) == req.currentPr;
    hide Digits, HasSuffix, Value;
  }
}
