/**
 * `MetricsCalculator`: dashboard counts over the rows of the store that fall
 * in a time window ending now. Timestamps are seconds; the window starts
 * `days` days before the clock reading taken when the calculator is built.
 */
module Metrics {
  import opened Wrappers
  import opened Collections
  import opened Records
  import opened Store
  import opened Frames

  const SecondsPerDay: int := 86400

  /** `dt.floor('D')`: the day a timestamp falls on (floor division). */
  function Day(t: int): (d: int)
    ensures d * SecondsPerDay <= t < (d + 1) * SecondsPerDay
  {
    t / SecondsPerDay
  }

  // ------------------------------------------------------------- row columns

  function PrCreated(r: PrRow): Option<int> { Some(r.createdAt) }
  function IssueCreated(r: IssueRow): Option<int> { Some(r.createdAt) }
  function CommentCreated(r: CommentRow): Option<int> { Some(r.createdAt) }
  function ReviewSubmitted(r: ReviewRow): Option<int> { Some(r.submittedAt) }
  function ReleaseCreated(r: ReleaseRow): Option<int> { Some(r.createdAt) }

  function PrLogin(r: PrRow): string { r.userLogin }
  function IssueLogin(r: IssueRow): string { r.userLogin }
  function CommentLogin(r: CommentRow): string { r.userLogin }
  function ReviewerLogin(r: ReviewRow): string { r.reviewerLogin }

  predicate PrIsOpen(r: PrRow) { r.state == "open" }
  predicate PrIsMerged(r: PrRow) { r.state == "merged" }
  /** The pull requests the backlog counts as closed: state closed or merged. */
  predicate PrIsClosed(r: PrRow) { r.state == "closed" || r.state == "merged" }
  predicate IssueIsOpen(r: IssueRow) { r.state == "open" }
  predicate IssueIsClosed(r: IssueRow) { r.state == "closed" }
  /** A closed issue with a `closed_at` date; `value_counts` drops the others. */
  predicate IssueClosedDated(r: IssueRow) { r.state == "closed" && r.closedAt.Some? }

  // ---------------------------------------------------------- backlog trend

  /** One row of the backlog trend: a day, its opened and closed counts, and the running backlog. */
  datatype TrendRow = TrendRow(day: int, openedCount: nat, closedCount: nat, backlog: int)

  /** `value_counts()` for one value: how many times `d` occurs in `xs`. */
  function Occurrences(xs: seq<int>, d: int): (n: nat)
    ensures n <= |xs|
    ensures n > 0 <==> d in xs
  {
    if xs == [] then 0
    else Occurrences(xs[..|xs| - 1], d) + (if xs[|xs| - 1] == d then 1 else 0)
  }

  /** The sum of the occurrence counts of `xs` over the days `days`. */
  function Tally(xs: seq<int>, days: seq<int>): int
  {
    if days == [] then 0
    else Tally(xs, days[..|days| - 1]) + Occurrences(xs, days[|days| - 1])
  }

  /** The days of the trend: every day something opened or closed on, ascending (the outer merge and sort). */
  function TrendDays(openedDays: seq<int>, closedDays: seq<int>): (days: seq<int>)
    ensures Increasing(days)
    ensures forall d :: d in days <==> d in openedDays || d in closedDays
  {
    SortedElements(set d | d in openedDays + closedDays)
  }

  lemma {:induction false} TallyOfNothing(days: seq<int>)
    ensures Tally([], days) == 0
  {
    if days != [] {
      TallyOfNothing(days[..|days| - 1]);
    }
  }

  /** Adding one element to `xs` adds the number of its occurrences in `days`. */
  lemma {:induction false} TallyAppend(xs: seq<int>, x: int, days: seq<int>)
    ensures Tally(xs + [x], days) == Tally(xs, days) + Occurrences(days, x)
  {
    if days != [] {
      var init := days[..|days| - 1];
      TallyAppend(xs, x, init);
      assert (xs + [x])[..|xs + [x]| - 1] == xs;
    }
  }

  /** A value of an increasing sequence occurs in it once. */
  lemma {:induction false} OccursOnce(days: seq<int>, x: int)
    requires Increasing(days) && x in days
    ensures Occurrences(days, x) == 1
  {
    var init := days[..|days| - 1];
    assert Increasing(init);
    if days[|days| - 1] != x {
      assert x in init by {
        var j :| 0 <= j < |days| && days[j] == x;
        assert j < |days| - 1;
        assert init[j] == x;
      }
      OccursOnce(init, x);
    }
  }

  /** Summing the daily counts over days that cover every value counts every value once. */
  lemma {:induction false} TallyOfCover(xs: seq<int>, days: seq<int>)
    requires Increasing(days)
    requires forall x :: x in xs ==> x in days
    ensures Tally(xs, days) == |xs|
  {
    if xs == [] {
      TallyOfNothing(days);
    } else {
      var init := xs[..|xs| - 1];
      var x := xs[|xs| - 1];
      assert xs == init + [x];
      TallyOfCover(init, days);
      TallyAppend(init, x, days);
      OccursOnce(days, x);
    }
  }

  /** The running backlog after the last row of `rows`, zero before the first. */
  function LastBacklog(rows: seq<TrendRow>): int
  {
    if rows == [] then 0 else rows[|rows| - 1].backlog
  }

  /**
   * The first `n` rows of the trend columns `date`, `opened`, `closed`,
   * `backlog` over the days `days`: the counts of each day, and the backlog
   * as the cumulative sum of `opened - closed`.
   */
  function TrendRows(openedDays: seq<int>, closedDays: seq<int>, days: seq<int>, n: nat): (rows: seq<TrendRow>)
    requires n <= |days|
    ensures |rows| == n
    ensures forall i :: 0 <= i < n ==> (rows[i].day == days[i]
      && rows[i].openedCount == Occurrences(openedDays, days[i]) && rows[i].closedCount == Occurrences(closedDays, days[i]))
    ensures LastBacklog(rows) == Tally(openedDays, days[..n]) - Tally(closedDays, days[..n])
  {
    if n == 0 then []
    else
      var prev := TrendRows(openedDays, closedDays, days, n - 1);
      var d := days[n - 1];
      var o := Occurrences(openedDays, d);
      var c := Occurrences(closedDays, d);
      assert days[..n][..n - 1] == days[..n - 1];
      prev + [TrendRow(d, o, c, LastBacklog(prev) + o - c)]
  }

  /** Each row's backlog is the running total of `opened - closed` up to and including its day. */
  lemma {:induction false} TrendRowsBacklog(openedDays: seq<int>, closedDays: seq<int>, days: seq<int>, n: nat)
    requires n <= |days|
    ensures forall i :: 0 <= i < n ==>
      TrendRows(openedDays, closedDays, days, n)[i].backlog == Tally(openedDays, days[..i + 1]) - Tally(closedDays, days[..i + 1])
  {
    if n > 0 {
      TrendRowsBacklog(openedDays, closedDays, days, n - 1);
      var rows := TrendRows(openedDays, closedDays, days, n);
      var prev := TrendRows(openedDays, closedDays, days, n - 1);
      forall i | 0 <= i < n
        ensures rows[i].backlog == Tally(openedDays, days[..i + 1]) - Tally(closedDays, days[..i + 1])
      {
        if i < n - 1 {
          assert rows[i] == prev[i];
        }
      }
    }
  }

  /** The whole trend ends on everything opened minus everything closed. */
  lemma FinalBacklog(openedDays: seq<int>, closedDays: seq<int>)
    ensures var days := TrendDays(openedDays, closedDays);
      LastBacklog(TrendRows(openedDays, closedDays, days, |days|)) == |openedDays| - |closedDays|
    ensures var days := TrendDays(openedDays, closedDays);
      |days| == 0 <==> openedDays == [] && closedDays == []
  {
    var days := TrendDays(openedDays, closedDays);
    assert days[..|days|] == days;
    TallyOfCover(openedDays, days);
    TallyOfCover(closedDays, days);
    if openedDays != [] {
      assert openedDays[0] in days;
    } else if closedDays != [] {
      assert closedDays[0] in days;
    }
  }

  /** `get_backlog_trend`'s loop over the days: one row per day, the backlog carried forward. */
  method TrendOver(openedDays: seq<int>, closedDays: seq<int>, days: seq<int>) returns (rows: seq<TrendRow>)
    ensures rows == TrendRows(openedDays, closedDays, days, |days|)
  {
    rows := [];
    var backlog: int := 0;
    for k := 0 to |days|
      invariant rows == TrendRows(openedDays, closedDays, days, k)
      invariant backlog == LastBacklog(rows)
    {
      var o := Occurrences(openedDays, days[k]);
      var c := Occurrences(closedDays, days[k]);
      backlog := backlog + o - c;
      rows := rows + [TrendRow(days[k], o, c, backlog)];
    }
  }

  /** The trend over every day something opened or closed on. */
  method Trend(openedDays: seq<int>, closedDays: seq<int>) returns (rows: seq<TrendRow>)
    ensures var days := TrendDays(openedDays, closedDays); rows == TrendRows(openedDays, closedDays, days, |days|)
    ensures rows == [] <==> openedDays == [] && closedDays == []
    ensures LastBacklog(rows) == |openedDays| - |closedDays|
  {
    var days := TrendDays(openedDays, closedDays);
    rows := TrendOver(openedDays, closedDays, days);
    FinalBacklog(openedDays, closedDays);
  }

  function PrCreatedAt(r: PrRow): int { r.createdAt }
  function IssueCreatedAt(r: IssueRow): int { r.createdAt }

  /** The days on which the rows of a frame were created, in frame order. */
  function OpenedDays<R>(rows: seq<R>, created: R -> int): (ds: seq<int>)
    ensures |ds| == |rows|
    ensures forall i :: 0 <= i < |rows| ==> ds[i] == Day(created(rows[i]))
    ensures forall d :: d in ds <==> exists r :: r in rows && Day(created(r)) == d
  {
    var ds := seq(|rows|, i requires 0 <= i < |rows| => Day(created(rows[i])));
    forall d | d in ds ensures exists r :: r in rows && Day(created(r)) == d {
      var j :| 0 <= j < |ds| && ds[j] == d;
      assert rows[j] in rows;
    }
    forall d | exists r :: r in rows && Day(created(r)) == d ensures d in ds {
      var r :| r in rows && Day(created(r)) == d;
      var j :| 0 <= j < |rows| && rows[j] == r;
      assert ds[j] == d;
    }
    ds
  }

  /** The days of `updated_at` of the closed or merged pull requests of a frame. */
  function PrClosedDays(rows: seq<PrRow>): (ds: seq<int>)
    ensures |ds| == Count(rows, PrIsClosed)
    ensures forall d :: d in ds <==> exists r :: r in rows && PrIsClosed(r) && Day(r.updatedAt) == d
  {
    if rows == [] then []
    else
      var rest := PrClosedDays(rows[1..]);
      assert forall r :: r in rows <==> r == rows[0] || r in rows[1..];
      (if PrIsClosed(rows[0]) then [Day(rows[0].updatedAt)] else []) + rest
  }

  /** The days of `closed_at` of the closed issues of a frame that have one. */
  function IssueClosedDays(rows: seq<IssueRow>): (ds: seq<int>)
    ensures |ds| == Count(rows, IssueClosedDated)
    ensures forall d :: d in ds <==> exists r :: r in rows && IssueClosedDated(r) && Day(r.closedAt.value) == d
  {
    if rows == [] then []
    else
      var rest := IssueClosedDays(rows[1..]);
      assert forall r :: r in rows <==> r == rows[0] || r in rows[1..];
      (if IssueClosedDated(rows[0]) then [Day(rows[0].closedAt.value)] else []) + rest
  }

  /**
   * The opened and closed days the trend is built from, treating a
   * column-less frame as a frame without rows.
   */
  function BacklogInputs(prs: Frame<PrRow>, issues: Frame<IssueRow>): (r: (seq<int>, seq<int>))
    ensures |r.0| == |prs.Records()| + |issues.Records()|
    ensures |r.1| == Count(prs.Records(), PrIsClosed) + Count(issues.Records(), IssueClosedDated)
    ensures forall d :: d in r.0 <==>
      (exists p :: p in prs.Records() && Day(p.createdAt) == d) || (exists i :: i in issues.Records() && Day(i.createdAt) == d)
  {
    var openedDays := OpenedDays(prs.Records(), PrCreatedAt) + OpenedDays(issues.Records(), IssueCreatedAt);
    var closedDays := PrClosedDays(prs.Records()) + IssueClosedDays(issues.Records());
    (openedDays, closedDays)
  }

  /**
   * The inputs as `get_backlog_trend` computes them: it returns early when
   * both frames are empty, and otherwise reads `created_at` from both, which
   * raises `KeyError` (`None`) on a column-less frame.
   */
  function BacklogInputsAsWritten(prs: Frame<PrRow>, issues: Frame<IssueRow>): (r: Option<(seq<int>, seq<int>)>)
    ensures r.None? <==> !(prs.IsEmpty() && issues.IsEmpty()) && (prs.Columnless? || issues.Columnless?)
    ensures r.Some? ==> r.value == BacklogInputs(prs, issues)
  {
    if prs.IsEmpty() && issues.IsEmpty() then
      assert BacklogInputs(prs, issues).0 == [] && BacklogInputs(prs, issues).1 == [];
      Some(([], []))
    else if prs.Columnless? || issues.Columnless? then None
    else Some(BacklogInputs(prs, issues))
  }

  // ----------------------------------------------------------------- results

  datatype ActiveItems = ActiveItems(openPrs: nat, openIssues: nat, total: nat)

  datatype Engagement = Engagement(uniqueContributors: nat, totalEngagements: nat)

  datatype ReleaseTotals = ReleaseTotals(releases: nat, churn: nat)

  /** The counts of a rate: `NoRows` is the bare `0.0` returned for an empty window. */
  datatype RateCounts = NoRows | Counts(part: nat, total: nat)

  /** `additions + deletions`; a NULL operand gives a missing size. */
  function SizeOf(r: PrRow): Option<int>
  {
    if r.additions.Some? && r.deletions.Some? then Some(r.additions.value + r.deletions.value) else None
  }

  /** `size` is `additions + deletions` of `row`, missing when either is NULL. */
  predicate IsSizeOf(size: Option<int>, row: PrRow)
  {
    (size.Some? <==> row.additions.Some? && row.deletions.Some?)
    && (size.Some? ==> size.value == row.additions.value + row.deletions.value)
  }

  /** The `size` column of a frame's rows. */
  function Sizes(rows: seq<PrRow>): (sizes: seq<Option<int>>)
    ensures |sizes| == |rows|
    ensures forall i :: 0 <= i < |sizes| ==> IsSizeOf(sizes[i], rows[i])
  {
    if rows == [] then [] else [SizeOf(rows[0])] + Sizes(rows[1..])
  }

  // -------------------------------------------------------------- calculator

  class MetricsCalculator {
    const db: DatabaseManager
    const days: Option<int>
    const endDate: int
    /** The window's start; `None` means all time. */
    const startDate: Option<int>

    /** `MetricsCalculator(db_path, days)`: the window ends at the clock reading `now`. */
    constructor (db: DatabaseManager, days: Option<int>, now: int)
      ensures this.db == db && this.days == days && endDate == now
      ensures days.None? ==> startDate.None?
      ensures days.Some? ==> startDate == Some(now - days.value * SecondsPerDay)
    {
      this.db := db;
      this.days := days;
      endDate := now;
      startDate := if days.Some? then Some(now - days.value * SecondsPerDay) else None;
    }

    function PrFrame(): Frame<PrRow>
      reads db
    {
      Window(db.prs, PrCreated, startDate)
    }

    function IssueFrame(): Frame<IssueRow>
      reads db
    {
      Window(db.issues, IssueCreated, startDate)
    }

    /** `backlog_trend_prs`: the open pull requests created in the window. */
    function BacklogTrendPrs(): (n: nat)
      reads db
      ensures n == |Matching(db.prs, PrCreated, startDate, PrIsOpen)|
    {
      WindowCount(db.prs, PrCreated, startDate, PrIsOpen);
      if PrFrame().IsEmpty() then 0 else Count(PrFrame().Records(), PrIsOpen)
    }

    /** `backlog_trend_issues`: the open issues created in the window. */
    function BacklogTrendIssues(): (n: nat)
      reads db
      ensures n == |Matching(db.issues, IssueCreated, startDate, IssueIsOpen)|
    {
      WindowCount(db.issues, IssueCreated, startDate, IssueIsOpen);
      if IssueFrame().IsEmpty() then 0 else Count(IssueFrame().Records(), IssueIsOpen)
    }

    /** `get_active_items`: open pull requests and open issues of the window, and their sum. */
    function GetActiveItems(): (r: ActiveItems)
      reads db
      ensures r.openPrs == |Matching(db.prs, PrCreated, startDate, PrIsOpen)|
      ensures r.openIssues == |Matching(db.issues, IssueCreated, startDate, IssueIsOpen)|
      ensures r.total == r.openPrs + r.openIssues
      ensures r.openPrs == BacklogTrendPrs() && r.openIssues == BacklogTrendIssues()
    {
      WindowCount(db.prs, PrCreated, startDate, PrIsOpen);
      WindowCount(db.issues, IssueCreated, startDate, IssueIsOpen);
      var prs := PrFrame();
      var issues := IssueFrame();
      var openPrs := if prs.IsEmpty() then 0 else Count(prs.Records(), PrIsOpen);
      var openIssues := if issues.IsEmpty() then 0 else Count(issues.Records(), IssueIsOpen);
      ActiveItems(openPrs, openIssues, openPrs + openIssues)
    }

    /** Every login that authored a pull request, issue or comment, or submitted a review, in the window. */
    function Contributors(): set<string>
      reads db
    {
      Logins(db.prs, PrCreated, startDate, PrLogin) + Logins(db.issues, IssueCreated, startDate, IssueLogin)
      + Logins(db.comments, CommentCreated, startDate, CommentLogin)
      + Logins(db.reviews, ReviewSubmitted, startDate, ReviewerLogin)
    }

    /** The rows of the four tables in the window. */
    function Engagements(): nat
      reads db
    {
      |Selected(db.prs, PrCreated, startDate)| + |Selected(db.issues, IssueCreated, startDate)|
      + |Selected(db.comments, CommentCreated, startDate)| + |Selected(db.reviews, ReviewSubmitted, startDate)|
    }

    /**
     * `get_community_engagement`: the distinct logins of the four frames,
     * and their total number of rows; no more people than rows.
     */
    function GetCommunityEngagement(): (r: Engagement)
      reads db
      ensures r.uniqueContributors == |Contributors()|
      ensures r.totalEngagements == Engagements()
      ensures r.uniqueContributors <= r.totalEngagements
    {
      EngagementCounts();
      var prs := PrFrame();
      var issues := IssueFrame();
      var comments := Window(db.comments, CommentCreated, startDate);
      var reviews := Window(db.reviews, ReviewSubmitted, startDate);
      var all := Authors(prs, PrLogin) + Authors(issues, IssueLogin) + Authors(comments, CommentLogin) + Authors(reviews, ReviewerLogin);
      Engagement(|all|, |prs.Records()| + |issues.Records()| + |comments.Records()| + |reviews.Records()|)
    }

    /** The frames' logins and rows are the contributors and the engagements. */
    lemma EngagementCounts()
      ensures Authors(PrFrame(), PrLogin) + Authors(IssueFrame(), IssueLogin)
        + Authors(Window(db.comments, CommentCreated, startDate), CommentLogin)
        + Authors(Window(db.reviews, ReviewSubmitted, startDate), ReviewerLogin) == Contributors()
      ensures |PrFrame().Records()| + |IssueFrame().Records()| + |Window(db.comments, CommentCreated, startDate).Records()|
        + |Window(db.reviews, ReviewSubmitted, startDate).Records()| == Engagements()
      ensures |Contributors()| <= Engagements()
    {
      var prs := PrFrame();
      var issues := IssueFrame();
      var comments := Window(db.comments, CommentCreated, startDate);
      var reviews := Window(db.reviews, ReviewSubmitted, startDate);
      ContributorsAreImages();
      AuthorsBound(prs, PrLogin);
      AuthorsBound(issues, IssueLogin);
      AuthorsBound(comments, CommentLogin);
      AuthorsBound(reviews, ReviewerLogin);
      var a, b, c, d := Authors(prs, PrLogin), Authors(issues, IssueLogin), Authors(comments, CommentLogin), Authors(reviews, ReviewerLogin);
      UnionBound(a, b);
      UnionBound(a + b, c);
      UnionBound(a + b + c, d);
      WindowSize(db.prs, PrCreated, startDate);
      WindowSize(db.issues, IssueCreated, startDate);
      WindowSize(db.comments, CommentCreated, startDate);
      WindowSize(db.reviews, ReviewSubmitted, startDate);
    }

    /** The contributors are the images of the login columns of the four frames. */
    lemma ContributorsAreImages()
      ensures Contributors() ==
        Authors(PrFrame(), PrLogin) + Authors(IssueFrame(), IssueLogin)
        + Authors(Window(db.comments, CommentCreated, startDate), CommentLogin)
        + Authors(Window(db.reviews, ReviewSubmitted, startDate), ReviewerLogin)
    {
      WindowImage(db.prs, PrCreated, startDate, PrLogin);
      WindowImage(db.issues, IssueCreated, startDate, IssueLogin);
      WindowImage(db.comments, CommentCreated, startDate, CommentLogin);
      WindowImage(db.reviews, ReviewSubmitted, startDate, ReviewerLogin);
      AuthorsBound(PrFrame(), PrLogin);
      AuthorsBound(IssueFrame(), IssueLogin);
      AuthorsBound(Window(db.comments, CommentCreated, startDate), CommentLogin);
      AuthorsBound(Window(db.reviews, ReviewSubmitted, startDate), ReviewerLogin);
    }

    /** `get_throughput`: closed issues plus merged pull requests of the window. */
    function GetThroughput(): (n: nat)
      reads db
      ensures n == |Matching(db.issues, IssueCreated, startDate, IssueIsClosed)|
                 + |Matching(db.prs, PrCreated, startDate, PrIsMerged)|
    {
      WindowCount(db.prs, PrCreated, startDate, PrIsMerged);
      WindowCount(db.issues, IssueCreated, startDate, IssueIsClosed);
      var closedIssues := if IssueFrame().IsEmpty() then 0 else Count(IssueFrame().Records(), IssueIsClosed);
      var mergedPrs := if PrFrame().IsEmpty() then 0 else Count(PrFrame().Records(), PrIsMerged);
      closedIssues + mergedPrs
    }

    /** `get_total_releases`: the releases created in the window, and the merged pull requests as churn. */
    function GetTotalReleases(): (r: ReleaseTotals)
      reads db
      ensures r.releases == |Selected(db.releases, ReleaseCreated, startDate)|
      ensures r.churn == |Matching(db.prs, PrCreated, startDate, PrIsMerged)|
      ensures r.churn <= GetThroughput()
    {
      WindowCount(db.prs, PrCreated, startDate, PrIsMerged);
      WindowSize(db.releases, ReleaseCreated, startDate);
      var releases := Window(db.releases, ReleaseCreated, startDate);
      var churn := if PrFrame().IsEmpty() then 0 else Count(PrFrame().Records(), PrIsMerged);
      ReleaseTotals(if releases.IsEmpty() then 0 else |releases.Records()|, churn)
    }

    /** `get_pr_merge_rate` without the percentage: merged and all pull requests of the window. */
    function GetPrMergeRate(): (r: RateCounts)
      reads db
      ensures r.NoRows? <==> |Selected(db.prs, PrCreated, startDate)| == 0
      ensures r.Counts? ==> r.part == |Matching(db.prs, PrCreated, startDate, PrIsMerged)|
      ensures r.Counts? ==> r.total == |Selected(db.prs, PrCreated, startDate)|
      ensures r.Counts? ==> r.part <= r.total
    {
      WindowCount(db.prs, PrCreated, startDate, PrIsMerged);
      WindowSize(db.prs, PrCreated, startDate);
      var prs := PrFrame();
      if prs.IsEmpty() then NoRows else Counts(Count(prs.Records(), PrIsMerged), |prs.Records()|)
    }

    /** `get_issue_close_rate` without the percentage: closed and all issues of the window. */
    function GetIssueCloseRate(): (r: RateCounts)
      reads db
      ensures r.NoRows? <==> |Selected(db.issues, IssueCreated, startDate)| == 0
      ensures r.Counts? ==> r.part == |Matching(db.issues, IssueCreated, startDate, IssueIsClosed)|
      ensures r.Counts? ==> r.total == |Selected(db.issues, IssueCreated, startDate)|
      ensures r.Counts? ==> r.part <= r.total
    {
      WindowCount(db.issues, IssueCreated, startDate, IssueIsClosed);
      WindowSize(db.issues, IssueCreated, startDate);
      var issues := IssueFrame();
      if issues.IsEmpty() then NoRows else Counts(Count(issues.Records(), IssueIsClosed), |issues.Records()|)
    }

    /** `pr_size_distribution`: one size per pull request of the window, in id order. */
    function PrSizeDistribution(): (sizes: seq<Option<int>>)
      reads db
      ensures |sizes| == |Selected(db.prs, PrCreated, startDate)|
      ensures |sizes| == |PrFrame().Records()|
      ensures forall i :: 0 <= i < |sizes| ==> IsSizeOf(sizes[i], PrFrame().Records()[i])
    {
      WindowSize(db.prs, PrCreated, startDate);
      if PrFrame().IsEmpty() then [] else Sizes(PrFrame().Records())
    }

    /**
     * `get_backlog_trend` as written: `None` (the `KeyError`) exactly when
     * one table is empty while the window holds rows of the other; otherwise
     * the trend of `BacklogTrendReadingColumnlessAsEmpty`.
     */
    method GetBacklogTrend() returns (trend: Option<seq<TrendRow>>)
      ensures trend.None? <==> BacklogInputsAsWritten(PrFrame(), IssueFrame()).None?
      ensures trend.None? <==>
        (|db.prs| == 0 || |db.issues| == 0)
        && |Selected(db.prs, PrCreated, startDate)| + |Selected(db.issues, IssueCreated, startDate)| > 0
      ensures trend.Some? ==>
        var inputs := BacklogInputs(PrFrame(), IssueFrame());
        var days := TrendDays(inputs.0, inputs.1); trend.value == TrendRows(inputs.0, inputs.1, days, |days|)
      ensures trend.Some? ==> forall i, j :: 0 <= i < j < |trend.value| ==> trend.value[i].day < trend.value[j].day
      ensures trend.Some? ==>
        LastBacklog(trend.value) ==
        |Selected(db.prs, PrCreated, startDate)| + |Selected(db.issues, IssueCreated, startDate)|
        - |Matching(db.prs, PrCreated, startDate, PrIsClosed)| - |Matching(db.issues, IssueCreated, startDate, IssueClosedDated)|
    {
      WindowSize(db.prs, PrCreated, startDate);
      WindowSize(db.issues, IssueCreated, startDate);
      if BacklogInputsAsWritten(PrFrame(), IssueFrame()).None? {
        return None;
      }
      var rows := BacklogTrendReadingColumnlessAsEmpty();
      trend := Some(rows);
    }

    /**
     * `get_backlog_trend` with a column-less frame read as a frame without
     * rows, as evidently intended: one row per day, and the last backlog is
     * everything opened in the window minus everything closed.
     */
    method BacklogTrendReadingColumnlessAsEmpty() returns (trend: seq<TrendRow>)
      ensures var inputs := BacklogInputs(PrFrame(), IssueFrame());
        var days := TrendDays(inputs.0, inputs.1); trend == TrendRows(inputs.0, inputs.1, days, |days|)
      ensures trend == [] <==> |Selected(db.prs, PrCreated, startDate)| + |Selected(db.issues, IssueCreated, startDate)| == 0
      ensures forall i, j :: 0 <= i < j < |trend| ==> trend[i].day < trend[j].day
      ensures LastBacklog(trend) ==
        |Selected(db.prs, PrCreated, startDate)| + |Selected(db.issues, IssueCreated, startDate)|
        - |Matching(db.prs, PrCreated, startDate, PrIsClosed)| - |Matching(db.issues, IssueCreated, startDate, IssueClosedDated)|
    {
      WindowSize(db.prs, PrCreated, startDate);
      WindowSize(db.issues, IssueCreated, startDate);
      WindowCount(db.prs, PrCreated, startDate, PrIsClosed);
      WindowCount(db.issues, IssueCreated, startDate, IssueClosedDated);
      var inputs := BacklogInputs(PrFrame(), IssueFrame());
      trend := Trend(inputs.0, inputs.1);
    }
  }

  /** The distinct logins of a frame's rows; none for an empty frame. */
  function Authors<R>(f: Frame<R>, login: R -> string): set<string>
  {
    if f.IsEmpty() then {} else Image(f.Records(), login)
  }

  /** A frame has no more distinct logins than rows. */
  lemma AuthorsBound<R>(f: Frame<R>, login: R -> string)
    ensures |Authors(f, login)| <= |f.Records()|
    ensures Authors(f, login) == Image(f.Records(), login)
  {
    ImageBound(f.Records(), login);
  }

  /**
   * With no pull request stored and an issue in the window, the trend as
   * written raises, while the corrected inputs count that issue.
   */
  lemma BacklogRaisesWithoutPullRequests(m: MetricsCalculator)
    requires m.db.prs == map[] && |Selected(m.db.issues, IssueCreated, m.startDate)| > 0
    ensures BacklogInputsAsWritten(m.PrFrame(), m.IssueFrame()).None?
    ensures |BacklogInputs(m.PrFrame(), m.IssueFrame()).0| == |Selected(m.db.issues, IssueCreated, m.startDate)|
  {
    WindowSize(m.db.issues, IssueCreated, m.startDate);
  }
}
