/**
 * `GitHubDataPipeline`: fetch each resource, normalise every record and
 * upsert it into the store, keeping count of the rows written. What the
 * GitHub API answers is passed in: `None` for a failed request, otherwise
 * the items of all pages.
 */
module Pipeline {
  import opened Wrappers
  import opened Text
  import opened Records
  import opened Normalize
  import opened Store
  import opened Fetcher
  import Collections

  // ------------------------------------------ what each loop leaves behind

  /** The rows `upsert_pull_request` writes for a batch of fetched pull requests. */
  function PrRows(raws: seq<RawPr>, now: string): (r: seq<PrRow>)
    ensures |r| == |raws|
    ensures forall i :: 0 <= i < |raws| ==> r[i] == PrToRow(ProcessPullRequest(raws[i]), now)
  {
    seq(|raws|, i requires 0 <= i < |raws| => PrToRow(ProcessPullRequest(raws[i]), now))
  }

  /** The pull request table after upserting each fetched pull request in turn. */
  function StorePrs(t: map<int, PrRow>, raws: seq<RawPr>, now: string): map<int, PrRow>
  {
    ReplaceAll(t, PrRows(raws, now), PrId, PrNumber)
  }

  /** Storing one more pull request of the batch is one more replace. */
  lemma StorePrsStep(t: map<int, PrRow>, raws: seq<RawPr>, i: int, now: string)
    requires 0 <= i < |raws|
    ensures StorePrs(t, raws[..i + 1], now) == ReplacePr(StorePrs(t, raws[..i], now), PrToRow(ProcessPullRequest(raws[i]), now))
  {
    assert PrRows(raws[..i + 1], now)[..i] == PrRows(raws[..i], now);
  }

  lemma StoreReleasesStep(t: map<int, ReleaseRow>, rs: seq<Release>, i: int, now: string)
    requires 0 <= i < |rs|
    ensures StoreReleases(t, rs[..i + 1], now) == ReplaceRelease(StoreReleases(t, rs[..i], now), ReleaseToRow(rs[i], now))
  {
    assert ReleaseRows(rs[..i + 1], now)[..i] == ReleaseRows(rs[..i], now);
  }

  /** Row `i` of a batch is the last one in it with its id and with its number. */
  predicate LastOfItsKeys(raws: seq<RawPr>, i: int)
  {
    0 <= i < |raws| && forall j :: i < j < |raws| ==> raws[j].id != raws[i].id && raws[j].number != raws[i].number
  }

  /**
   * Every fetched pull request is in the table after the loop, as
   * normalised, unless a later one in the same batch displaced it.
   */
  lemma StorePrsKeepsLatest(t: map<int, PrRow>, raws: seq<RawPr>, now: string, i: int)
    requires LastOfItsKeys(raws, i)
    ensures raws[i].id in StorePrs(t, raws, now)
    ensures StorePrs(t, raws, now)[raws[i].id] == PrToRow(ProcessPullRequest(raws[i]), now)
  {
    ReplaceAllKeepsLatest(t, PrRows(raws, now), PrId, PrNumber, i);
  }

  /** One fetched item's effect on the issue table: skipped if it is a pull request, upserted otherwise. */
  function IssueStep(prev: map<int, IssueRow>, raw: RawIssue, now: string): map<int, IssueRow>
  {
    if raw.isPullRequest then prev else ReplaceIssue(prev, IssueToRow(ProcessIssue(raw), now))
  }

  /** The issue table after the issue loop: items carrying `pull_request` are skipped. */
  function StoreIssues(t: map<int, IssueRow>, raws: seq<RawIssue>, now: string): map<int, IssueRow>
  {
    if raws == [] then t
    else IssueStep(StoreIssues(t, raws[..|raws| - 1], now), raws[|raws| - 1], now)
  }

  /** The number of fetched items that are issues proper. */
  function IssueCount(raws: seq<RawIssue>): (n: nat)
    ensures n <= |raws|
  {
    if raws == [] then 0
    else IssueCount(raws[..|raws| - 1]) + (if raws[|raws| - 1].isPullRequest then 0 else 1)
  }

  /** One more item of the batch is one more step on the table. */
  lemma StoreIssuesStep(t: map<int, IssueRow>, raws: seq<RawIssue>, i: int, now: string)
    requires 0 <= i < |raws|
    ensures StoreIssues(t, raws[..i + 1], now) == IssueStep(StoreIssues(t, raws[..i], now), raws[i], now)
  {
    var p := raws[..i + 1];
    assert p[..i] == raws[..i];
  }

  /** One more item of the batch is counted unless it is a pull request. */
  lemma IssueCountStep(raws: seq<RawIssue>, i: int)
    requires 0 <= i < |raws|
    ensures IssueCount(raws[..i + 1]) == IssueCount(raws[..i]) + if raws[i].isPullRequest then 0 else 1
  {
    var p := raws[..i + 1];
    assert p[..i] == raws[..i];
  }

  /** A response holding only pull requests leaves the issue table alone and counts nothing. */
  lemma {:induction false} PullRequestsAreNotIssues(t: map<int, IssueRow>, raws: seq<RawIssue>, now: string)
    requires forall i :: 0 <= i < |raws| ==> raws[i].isPullRequest
    ensures StoreIssues(t, raws, now) == t && IssueCount(raws) == 0
  {
    if raws != [] {
      PullRequestsAreNotIssues(t, raws[..|raws| - 1], now);
    }
  }

  /** The review table after upserting the reviews of one pull request. */
  function StoreReviews(t: map<int, ReviewRow>, prNumber: int, raws: seq<RawReview>, now: string): map<int, ReviewRow>
  {
    if raws == [] then t
    else
      var prev := StoreReviews(t, prNumber, raws[..|raws| - 1], now);
      var row := ReviewToRow(ProcessReview(raws[|raws| - 1], prNumber), now);
      if row.Some? then prev[row.value.id := row.value] else prev
  }

  /** The reviews of a batch that the store accepts: those with a `submitted_at`. */
  function SubmittedCount(raws: seq<RawReview>): (n: nat)
    ensures n <= |raws|
  {
    if raws == [] then 0
    else SubmittedCount(raws[..|raws| - 1]) + (if raws[|raws| - 1].submittedAt.Some? then 1 else 0)
  }

  /** The review table after the reviews of each listed pull request are stored. */
  function StoreAllReviews(t: map<int, ReviewRow>, numbers: seq<int>, fetch: int -> Option<seq<RawReview>>, now: string): map<int, ReviewRow>
  {
    if numbers == [] then t
    else
      var n := numbers[|numbers| - 1];
      StoreReviews(StoreAllReviews(t, numbers[..|numbers| - 1], fetch, now), n, fetch(n).GetOr([]), now)
  }

  function ReviewCount(numbers: seq<int>, fetch: int -> Option<seq<RawReview>>): nat
  {
    if numbers == [] then 0
    else ReviewCount(numbers[..|numbers| - 1], fetch) + SubmittedCount(fetch(numbers[|numbers| - 1]).GetOr([]))
  }

  /** Reviews without a `submitted_at` never reach the table. */
  lemma {:induction false} UnsubmittedReviewsIgnored(t: map<int, ReviewRow>, prNumber: int, raws: seq<RawReview>, now: string)
    requires forall i :: 0 <= i < |raws| ==> raws[i].submittedAt.None?
    ensures StoreReviews(t, prNumber, raws, now) == t && SubmittedCount(raws) == 0
  {
    if raws != [] {
      UnsubmittedReviewsIgnored(t, prNumber, raws[..|raws| - 1], now);
    }
  }

  lemma StoreReviewsStep(t: map<int, ReviewRow>, prNumber: int, raws: seq<RawReview>, j: int, now: string)
    requires 0 <= j < |raws|
    ensures var row := ReviewToRow(ProcessReview(raws[j], prNumber), now);
      StoreReviews(t, prNumber, raws[..j + 1], now) == (if row.Some? then StoreReviews(t, prNumber, raws[..j], now)[row.value.id := row.value] else StoreReviews(t, prNumber, raws[..j], now))
    ensures SubmittedCount(raws[..j + 1]) == SubmittedCount(raws[..j]) + if raws[j].submittedAt.Some? then 1 else 0
  {
    assert raws[..j + 1][..j] == raws[..j];
  }

  lemma StoreAllReviewsStep(t: map<int, ReviewRow>, numbers: seq<int>, i: int, fetch: int -> Option<seq<RawReview>>, now: string)
    requires 0 <= i < |numbers|
    ensures StoreAllReviews(t, numbers[..i + 1], fetch, now)
      == StoreReviews(StoreAllReviews(t, numbers[..i], fetch, now), numbers[i], fetch(numbers[i]).GetOr([]), now)
    ensures ReviewCount(numbers[..i + 1], fetch) == ReviewCount(numbers[..i], fetch) + SubmittedCount(fetch(numbers[i]).GetOr([]))
  {
    assert numbers[..i + 1][..i] == numbers[..i];
  }

  /** The comment's URL ends in a number, so the comment normalises. */
  predicate Parses(c: RawComment)
  {
    UrlNumber(c.issueUrl).Some?
  }

  /** The index of the first comment whose URL does not end in a number; `|raws|` if none. */
  function ParsedLength(raws: seq<RawComment>): (n: nat)
    ensures n <= |raws|
    ensures forall i :: 0 <= i < n ==> ProcessComment(raws[i]).Some?
    ensures n < |raws| ==> ProcessComment(raws[n]).None?
  {
    var n := Collections.RunEnd(raws, Parses, 0);
    assert forall i :: 0 <= i < n ==> Parses(raws[i]);
    n
  }

  /**
   * The comments the loop gets through: each parsed, up to (not including)
   * the first whose URL does not end in a number, where the conversion raises.
   */
  function ParsedPrefix(raws: seq<RawComment>): (cs: seq<Comment>)
    ensures |cs| <= |raws|
    ensures forall i :: 0 <= i < |cs| ==> ProcessComment(raws[i]) == Some(cs[i])
    ensures |cs| < |raws| ==> ProcessComment(raws[|cs|]).None?
  {
    var n := ParsedLength(raws);
    seq(n, i requires 0 <= i < n => ProcessComment(raws[i]).value)
  }

  /** The comment table after upserting each parsed comment in turn. */
  function StoreComments(t: map<int, CommentRow>, cs: seq<Comment>, now: string): map<int, CommentRow>
  {
    if cs == [] then t
    else
      var prev := StoreComments(t, cs[..|cs| - 1], now);
      var row := CommentToRow(cs[|cs| - 1], now);
      if row.Some? then prev[row.value.id := row.value] else prev
  }

  /** The comments the store accepts: those with a body and exactly one parent. */
  predicate Storable(c: Comment)
  {
    c.body.Some? && OneParent(c.issueNumber, c.prNumber)
  }

  function CommentCount(cs: seq<Comment>): (n: nat)
    ensures n <= |cs|
  {
    if cs == [] then 0
    else CommentCount(cs[..|cs| - 1]) + (if Storable(cs[|cs| - 1]) then 1 else 0)
  }

  lemma StoreCommentsStep(t: map<int, CommentRow>, cs: seq<Comment>, i: int, now: string)
    requires 0 <= i < |cs|
    ensures var row := CommentToRow(cs[i], now);
      StoreComments(t, cs[..i + 1], now) == (if row.Some? then StoreComments(t, cs[..i], now)[row.value.id := row.value] else StoreComments(t, cs[..i], now))
    ensures CommentCount(cs[..i + 1]) == CommentCount(cs[..i]) + if Storable(cs[i]) then 1 else 0
  {
    assert cs[..i + 1][..i] == cs[..i];
  }

  /** Every comment written to the table has exactly one parent. */
  lemma {:induction false} StoredCommentsHaveOneParent(t: map<int, CommentRow>, cs: seq<Comment>, now: string)
    requires forall k :: k in t ==> OneParent(t[k].issueNumber, t[k].prNumber)
    ensures forall k :: k in StoreComments(t, cs, now) ==>
      OneParent(StoreComments(t, cs, now)[k].issueNumber, StoreComments(t, cs, now)[k].prNumber)
  {
    if cs != [] {
      StoredCommentsHaveOneParent(t, cs[..|cs| - 1], now);
    }
  }

  /** The rows `upsert_release` writes for a batch of normalised releases. */
  function ReleaseRows(rs: seq<Release>, now: string): (r: seq<ReleaseRow>)
    ensures |r| == |rs|
    ensures forall i :: 0 <= i < |rs| ==> r[i] == ReleaseToRow(rs[i], now)
  {
    seq(|rs|, i requires 0 <= i < |rs| => ReleaseToRow(rs[i], now))
  }

  /** The release table after upserting each release in turn. */
  function StoreReleases(t: map<int, ReleaseRow>, rs: seq<Release>, now: string): map<int, ReleaseRow>
  {
    ReplaceAll(t, ReleaseRows(rs, now), ReleaseId, ReleaseTag)
  }

  /** The release normalises as the code is written: neither its name nor its body is null. */
  predicate ReleaseParses(r: RawRelease)
  {
    ProcessReleaseAsWritten(r).Some?
  }

  /**
   * The releases the loop gets through as written: each normalised, up to
   * (not including) the first with a null name or body, where lower-casing raises.
   */
  function ReleasePrefix(raws: seq<RawRelease>): (rs: seq<Release>)
    ensures |rs| <= |raws|
    ensures forall i :: 0 <= i < |rs| ==> ProcessReleaseAsWritten(raws[i]) == Some(rs[i])
    ensures |rs| < |raws| ==> ProcessReleaseAsWritten(raws[|rs|]).None?
  {
    var n := Collections.RunEnd(raws, ReleaseParses, 0);
    assert forall i :: 0 <= i < n ==> ReleaseParses(raws[i]);
    seq(n, i requires 0 <= i < n => ProcessReleaseAsWritten(raws[i]).value)
  }

  /** Every fetched release normalised with null names and bodies read as empty text. */
  function ReleasesReadingNullAsEmpty(raws: seq<RawRelease>): (rs: seq<Release>)
    ensures |rs| == |raws|
    ensures forall i :: 0 <= i < |raws| ==> rs[i] == ProcessRelease(raws[i])
  {
    seq(|raws|, i requires 0 <= i < |raws| => ProcessRelease(raws[i]))
  }

  /**
   * The code as written stores a prefix of what the corrected reading
   * stores, and all of it exactly when no name or body is null.
   */
  lemma ReleasePrefixAgrees(raws: seq<RawRelease>)
    ensures ReleasePrefix(raws) == ReleasesReadingNullAsEmpty(raws)[..|ReleasePrefix(raws)|]
    ensures ReleasePrefix(raws) == ReleasesReadingNullAsEmpty(raws)
      <==> forall i :: 0 <= i < |raws| ==> ReleaseParses(raws[i])
  {
    var p := ReleasePrefix(raws);
    var c := ReleasesReadingNullAsEmpty(raws);
    assert forall i :: 0 <= i < |p| ==> p[i] == c[i];
    if forall i :: 0 <= i < |raws| ==> ReleaseParses(raws[i]) {
      assert |p| == |raws|;
    }
    if p == c {
      assert forall i :: 0 <= i < |raws| ==> ProcessReleaseAsWritten(raws[i]) == Some(p[i]);
    }
  }

  /**
   * What `fetch_and_store_releases` returns: `None` when it raises (some
   * release has a null name or body), else the number stored.
   */
  function ReleasePhase(data: Option<seq<RawRelease>>): Option<nat>
  {
    if data.None? then Some(0)
    else if |ReleasePrefix(data.value)| < |data.value| then None
    else Some(|data.value|)
  }

  /** A null name or body anywhere in the batch makes the release phase raise, at or before that release. */
  lemma NullReleaseAbortsPhase(raws: seq<RawRelease>, i: int)
    requires 0 <= i < |raws| && (raws[i].name == Null || raws[i].body == Null)
    ensures |ReleasePrefix(raws)| <= i
    ensures ReleasePhase(Some(raws)) == None
  {
  }

  /** `updated_pr`: the stored pull request with the four size fields taken from the detail (absent ones as 0). */
  function WithDetail(pr: PullRequest, d: PrDetail): (r: PullRequest)
    ensures r.(additions := pr.additions, deletions := pr.deletions,
               changedFiles := pr.changedFiles, commitsCount := pr.commitsCount) == pr
    ensures r.additions == d.additions.GetOr(0) && r.deletions == d.deletions.GetOr(0)
    ensures r.changedFiles == d.changedFiles.GetOr(0) && r.commitsCount == d.commits.GetOr(0)
  {
    pr.(additions := d.additions.GetOr(0), deletions := d.deletions.GetOr(0),
        changedFiles := d.changedFiles.GetOr(0), commitsCount := d.commits.GetOr(0))
  }

  /** The pull request table after `fetch_add_del_data` has visited the listed pull requests. */
  function StoreDetails(t: map<int, PrRow>, listed: seq<PullRequest>, fetch: int -> Fetched, now: string): map<int, PrRow>
  {
    if listed == [] then t
    else
      var prev := StoreDetails(t, listed[..|listed| - 1], fetch, now);
      var pr := listed[|listed| - 1];
      var f := fetch(pr.number);
      if Usable(f) then ReplacePr(prev, PrToRow(WithDetail(pr, f.detail), now)) else prev
  }

  lemma StoreDetailsStep(t: map<int, PrRow>, listed: seq<PullRequest>, i: int, fetch: int -> Fetched, now: string)
    requires 0 <= i < |listed|
    ensures var f := fetch(listed[i].number);
      StoreDetails(t, listed[..i + 1], fetch, now)
      == (if Usable(f) then ReplacePr(StoreDetails(t, listed[..i], fetch, now), PrToRow(WithDetail(listed[i], f.detail), now))
          else StoreDetails(t, listed[..i], fetch, now))
  {
    assert listed[..i + 1][..i] == listed[..i];
  }

  lemma UsableCountStep(listed: seq<PullRequest>, i: int, fetch: int -> Fetched)
    requires 0 <= i < |listed|
    ensures UsableCount(Numbers(listed)[..i + 1], fetch) == UsableCount(Numbers(listed)[..i], fetch) + if Usable(fetch(listed[i].number)) then 1 else 0
  {
    assert Numbers(listed)[..i + 1][..i] == Numbers(listed)[..i];
  }

  function Numbers(listed: seq<PullRequest>): (r: seq<int>)
    ensures |r| == |listed| && forall i :: 0 <= i < |listed| ==> r[i] == listed[i].number
  {
    seq(|listed|, i requires 0 <= i < |listed| => listed[i].number)
  }

  /**
   * `listed` is the whole table as `get_pull_requests()` returns it: every
   * row once, decoded, latest created first (rows created at the same time
   * in any order).
   */
  predicate Lists(listed: seq<PullRequest>, t: map<int, PrRow>)
  {
    |listed| == |t|
    && (forall i :: 0 <= i < |listed| ==> listed[i].id in t && listed[i] == PrFromRow(t[listed[i].id]))
    && (forall i, j :: 0 <= i < j < |listed| ==> listed[i].id != listed[j].id)
    && (forall i, j :: 0 <= i < j < |listed| ==> listed[i].createdAt >= listed[j].createdAt)
  }

  /** With the client as written no detail answer is usable, so the visit leaves the table as it was. */
  lemma {:induction false} AsWrittenLeavesTable(t: map<int, PrRow>, listed: seq<PullRequest>,
                                                responses: int -> Option<PrDetail>, now: string)
    ensures StoreDetails(t, listed, n => FetchDetailAsWritten(responses(n)), now) == t
    decreases |listed|
  {
    if listed != [] {
      var last := |listed| - 1;
      AsWrittenLeavesTable(t, listed[..last], responses, now);
      StoreDetailsStep(t, listed, last, n => FetchDetailAsWritten(responses(n)), now);
      assert listed[..last + 1] == listed;
      assert !Usable(FetchDetailAsWritten(responses(listed[last].number)));
    }
  }

  /**
   * A listed pull request with a usable answer ends up stored with that
   * answer's sizes: the later pull requests have other ids and numbers, so
   * their replaces leave its row alone.
   */
  lemma {:induction false} DetailApplied(t: map<int, PrRow>, listed: seq<PullRequest>, fetch: int -> Fetched, now: string, i: int)
    requires DistinctPrs(listed)
    requires 0 <= i < |listed| && Usable(fetch(listed[i].number))
    ensures var s := StoreDetails(t, listed, fetch, now);
      listed[i].id in s && s[listed[i].id] == PrToRow(WithDetail(listed[i], fetch(listed[i].number).detail), now)
    decreases |listed|
  {
    var last := |listed| - 1;
    var init := listed[..last];
    var f := fetch(listed[last].number);
    var prev := StoreDetails(t, init, fetch, now);
    StoreDetailsStep(t, listed, last, fetch, now);
    assert listed[..last + 1] == listed;
    if i == last {
      ReplaceSetsRow(prev, PrToRow(WithDetail(listed[last], f.detail), now));
    } else {
      assert init[i] == listed[i];
      DistinctPrefix(listed, last);
      DetailApplied(t, init, fetch, now, i);
      if Usable(f) {
        assert listed[i].id != listed[last].id && listed[i].number != listed[last].number;
        ReplaceKeepsOther(prev, PrToRow(WithDetail(listed[last], f.detail), now), listed[i].id);
      }
    }
  }

  /** No two of the listed pull requests share an id or a number. */
  predicate DistinctPrs(listed: seq<PullRequest>)
  {
    forall a, b :: 0 <= a < b < |listed| ==> listed[a].id != listed[b].id && listed[a].number != listed[b].number
  }

  lemma DistinctPrefix(listed: seq<PullRequest>, n: int)
    requires DistinctPrs(listed) && 0 <= n <= |listed|
    ensures DistinctPrs(listed[..n])
  {
  }

  /** A replace stores its row at the row's id. */
  lemma ReplaceSetsRow(t: map<int, PrRow>, row: PrRow)
    ensures row.id in ReplacePr(t, row) && ReplacePr(t, row)[row.id] == row
  {
  }

  /** A replace leaves alone a row with another id and another number. */
  lemma ReplaceKeepsOther(t: map<int, PrRow>, row: PrRow, k: int)
    requires k in t && k != row.id && t[k].number != row.number
    ensures k in ReplacePr(t, row) && ReplacePr(t, row)[k] == t[k]
  {
  }

  /**
   * Visiting pull requests whose ids and numbers are those of rows of the
   * table drops no row and keeps every row's number: each replace only
   * overwrites the row the pull request came from.
   */
  lemma {:induction false} DetailKeepsRows(t: map<int, PrRow>, listed: seq<PullRequest>, fetch: int -> Fetched, now: string)
    requires UniqueBy(t, PrNumber)
    requires forall i :: 0 <= i < |listed| ==> listed[i].id in t && t[listed[i].id].number == listed[i].number
    ensures var s := StoreDetails(t, listed, fetch, now);
      s.Keys == t.Keys && forall k :: k in s ==> s[k].number == t[k].number
    decreases |listed|
  {
    if listed != [] {
      var last := |listed| - 1;
      DetailKeepsRows(t, listed[..last], fetch, now);
      StoreDetailsStep(t, listed, last, fetch, now);
      assert listed[..last + 1] == listed;
      var f := fetch(listed[last].number);
      if Usable(f) {
        ReplaceKeepsRows(t, StoreDetails(t, listed[..last], fetch, now), PrToRow(WithDetail(listed[last], f.detail), now));
      }
    }
  }

  /** Replacing the row of a table whose numbers are unique, under its own number, drops no other row. */
  lemma ReplaceKeepsRows(t: map<int, PrRow>, prev: map<int, PrRow>, row: PrRow)
    requires UniqueBy(t, PrNumber)
    requires prev.Keys == t.Keys && forall k :: k in prev ==> prev[k].number == t[k].number
    requires row.id in t && row.number == t[row.id].number
    ensures var r := ReplacePr(prev, row);
      r.Keys == t.Keys && forall k :: k in r ==> r[k].number == t[k].number
  {
    forall k | k in prev && k != row.id
      ensures PrNumber(prev[k]) != PrNumber(row)
    {
      assert PrNumber(t[k]) != PrNumber(t[row.id]);
    }
  }

  /** A row that no listed pull request with a usable answer came from is left as it was. */
  lemma {:induction false} DetailLeavesRow(t: map<int, PrRow>, listed: seq<PullRequest>, fetch: int -> Fetched, now: string, k: int)
    requires UniqueBy(t, PrNumber)
    requires forall i :: 0 <= i < |listed| ==> listed[i].id in t && t[listed[i].id].number == listed[i].number
    requires k in t
    requires forall i :: 0 <= i < |listed| && listed[i].id == k ==> !Usable(fetch(listed[i].number))
    ensures var s := StoreDetails(t, listed, fetch, now);
      k in s && s[k] == t[k]
    decreases |listed|
  {
    DetailKeepsRows(t, listed, fetch, now);
    if listed != [] {
      DetailLeavesRow(t, listed[..|listed| - 1], fetch, now, k);
    }
  }

  /**
   * `fetch_add_del_data` over the whole table as listed: the same rows stay,
   * each pull request with a usable answer is rewritten with that answer's
   * sizes, and every other row is left as it was.
   */
  lemma DetailsStored(t: map<int, PrRow>, listed: seq<PullRequest>, fetch: int -> Fetched, now: string)
    requires PrTable(t) && Lists(listed, t)
    ensures StoreDetails(t, listed, fetch, now).Keys == t.Keys
    ensures forall i :: 0 <= i < |listed| ==>
      StoreDetails(t, listed, fetch, now)[listed[i].id]
      == (if Usable(fetch(listed[i].number)) then PrToRow(WithDetail(listed[i], fetch(listed[i].number).detail), now)
          else t[listed[i].id])
  {
    assert forall i :: 0 <= i < |listed| ==> t[listed[i].id].number == listed[i].number;
    DetailKeepsRows(t, listed, fetch, now);
    forall i | 0 <= i < |listed|
      ensures StoreDetails(t, listed, fetch, now)[listed[i].id]
        == if Usable(fetch(listed[i].number)) then PrToRow(WithDetail(listed[i], fetch(listed[i].number).detail), now)
           else t[listed[i].id]
    {
      if Usable(fetch(listed[i].number)) {
        forall a, b | 0 <= a < b < |listed|
          ensures listed[a].id != listed[b].id && listed[a].number != listed[b].number
        {
          assert PrNumber(t[listed[a].id]) == listed[a].number;
          assert PrNumber(t[listed[b].id]) == listed[b].number;
        }
        assert DistinctPrs(listed);
        DetailApplied(t, listed, fetch, now, i);
      } else {
        DetailLeavesRow(t, listed, fetch, now, listed[i].id);
      }
    }
  }

  /** What the GitHub API answers to each request of a full sync. */
  datatype Responses = Responses(
    pulls: Option<seq<RawPr>>, issues: Option<seq<RawIssue>>,
    reviews: int -> Option<seq<RawReview>>, comments: Option<seq<RawComment>>,
    releases: Option<seq<RawRelease>>, details: int -> Fetched)

  /** The dictionary `sync_all_data` returns. */
  datatype SyncSummary = SyncSummary(
    pullRequests: nat, issues: nat, reviews: nat, comments: nat, releases: nat,
    additionsDeletionsFetched: nat, timestamp: string)

  /** The pull request table once the pull request phase is over. */
  function PrTableAfter(t: map<int, PrRow>, data: Option<seq<RawPr>>, now: string): map<int, PrRow>
  {
    if data.None? || data.value == [] then t else StorePrs(t, data.value, now)
  }

  /**
   * What `fetch_and_store_comments` returns: `None` when it raises (some
   * comment's URL does not end in a number), else the number stored.
   */
  function CommentPhase(data: Option<seq<RawComment>>): Option<nat>
  {
    if data.None? then Some(0)
    else if |ParsedPrefix(data.value)| < |data.value| then None
    else Some(CommentCount(ParsedPrefix(data.value)))
  }

  /** The metadata key of the full-sync checkpoint. */
  const FullSyncKey: string := SyncKey("full")

  /** The keys the pull request and issue phases write are not the full-sync checkpoint. */
  lemma PhaseKeysAreNotFull()
    ensures SyncKey("pr") != FullSyncKey && SyncKey("issue") != FullSyncKey
    ensures "total_prs_tracked" != FullSyncKey && "total_issues_tracked" != FullSyncKey
  {
    assert SyncKey("pr")[5] == 'p' && SyncKey("issue")[5] == 'i' && FullSyncKey[5] == 'f';
    assert "total_prs_tracked"[0] == 't' && "total_issues_tracked"[0] == 't' && FullSyncKey[0] == 'l';
  }

  /** The metadata once a phase has written its checkpoint and its total under `totalKey`. */
  function Checkpointed(meta: map<string, MetaRow>, syncType: string, totalKey: string, count: nat, now: string): map<string, MetaRow>
  {
    meta[SyncKey(syncType) := MetaRow(now, now)][totalKey := MetaRow(NatToString(count), now)]
  }

  /**
   * The metadata after the pull request and issue phases: each writes its
   * checkpoint and total only when its fetch returned something.
   */
  function MetadataAfterPhases(meta: map<string, MetaRow>, pulls: Option<seq<RawPr>>, issues: Option<seq<RawIssue>>, now: string): map<string, MetaRow>
  {
    var m := if pulls.None? || pulls.value == [] then meta
      else Checkpointed(meta, "pr", "total_prs_tracked", |pulls.value|, now);
    if issues.None? || issues.value == [] then m
    else Checkpointed(m, "issue", "total_issues_tracked", IssueCount(issues.value), now)
  }

  /** The two phases touch only their own checkpoints and totals; in particular the full-sync checkpoint survives them. */
  lemma PhasesKeepOtherKeys(meta: map<string, MetaRow>, pulls: Option<seq<RawPr>>, issues: Option<seq<RawIssue>>, now: string, k: string)
    requires k != SyncKey("pr") && k != "total_prs_tracked" && k != SyncKey("issue") && k != "total_issues_tracked"
    ensures k in MetadataAfterPhases(meta, pulls, issues, now) <==> k in meta
    ensures k in meta ==> MetadataAfterPhases(meta, pulls, issues, now)[k] == meta[k]
  {
  }

  // ----------------------------------------------------------- the pipeline

  class GitHubDataPipeline {
    const db: DatabaseManager
    const token: string

    /** The pipeline over an opened store; the source refuses to start without a token. */
    constructor (db: DatabaseManager, token: string)
      requires token != ""
      ensures this.db == db && this.token == token
    {
      this.db := db;
      this.token := token;
    }

    /**
     * `fetch_and_store_pull_requests`: nothing happens for a failed or empty
     * fetch; otherwise every pull request is normalised and upserted, the
     * checkpoint `last_pr_sync` is set and `total_prs_tracked` records the count.
     */
    method FetchAndStorePullRequests(data: Option<seq<RawPr>>, now: string) returns (count: nat)
      requires db.Valid()
      modifies db
      ensures db.Valid()
      ensures data.None? || data.value == [] ==> count == 0 && db.prs == old(db.prs) && db.metadata == old(db.metadata)
      ensures data.Some? && data.value != [] ==>
        count == |data.value| && db.prs == StorePrs(old(db.prs), data.value, now)
        && db.metadata == old(db.metadata)[SyncKey("pr") := MetaRow(now, now)]["total_prs_tracked" := MetaRow(NatToString(count), now)]
      ensures db.GetMetadata(FullSyncKey) == old(db.GetMetadata(FullSyncKey))
      ensures db.issues == old(db.issues) && db.reviews == old(db.reviews)
      ensures db.comments == old(db.comments) && db.releases == old(db.releases)
    {
      PhaseKeysAreNotFull();
      count := 0;
      if data.None? || data.value == [] {
        return;
      }
      count := StorePrBatch(data.value, now);
      db.UpdateLastSyncTime("pr", now);
      db.SetMetadata("total_prs_tracked", NatToString(count), now);
    }

    /** The loop of `fetch_and_store_pull_requests`: upsert each fetched pull request, counting each. */
    method StorePrBatch(raws: seq<RawPr>, now: string) returns (count: nat)
      requires db.Valid()
      modifies db
      ensures db.Valid()
      ensures count == |raws| && db.prs == StorePrs(old(db.prs), raws, now)
      ensures db.metadata == old(db.metadata) && db.issues == old(db.issues) && db.reviews == old(db.reviews)
      ensures db.comments == old(db.comments) && db.releases == old(db.releases)
    {
      count := 0;
      for i := 0 to |raws|
        invariant db.Valid() && count == i
        invariant db.prs == StorePrs(old(db.prs), raws[..i], now)
        invariant db.metadata == old(db.metadata)
        invariant db.issues == old(db.issues) && db.reviews == old(db.reviews)
        invariant db.comments == old(db.comments) && db.releases == old(db.releases)
      {
        StorePrsStep(old(db.prs), raws, i, now);
        var ok := db.UpsertPullRequest(ProcessPullRequest(raws[i]), now);
        if ok {
          count := count + 1;
        }
      }
      assert raws[..|raws|] == raws;
    }

    /**
     * `fetch_and_store_issues`: like the pull request loop, skipping every
     * item that is a pull request; sets `last_issue_sync` and `total_issues_tracked`.
     */
    method FetchAndStoreIssues(data: Option<seq<RawIssue>>, now: string) returns (count: nat)
      requires db.Valid()
      modifies db
      ensures db.Valid()
      ensures data.None? || data.value == [] ==> count == 0 && db.issues == old(db.issues) && db.metadata == old(db.metadata)
      ensures data.Some? && data.value != [] ==>
        count == IssueCount(data.value) && db.issues == StoreIssues(old(db.issues), data.value, now)
        && db.metadata == old(db.metadata)[SyncKey("issue") := MetaRow(now, now)]["total_issues_tracked" := MetaRow(NatToString(count), now)]
      ensures db.GetMetadata(FullSyncKey) == old(db.GetMetadata(FullSyncKey))
      ensures db.prs == old(db.prs) && db.reviews == old(db.reviews)
      ensures db.comments == old(db.comments) && db.releases == old(db.releases)
    {
      PhaseKeysAreNotFull();
      count := 0;
      if data.None? || data.value == [] {
        return;
      }
      count := StoreIssueBatch(data.value, now);
      db.UpdateLastSyncTime("issue", now);
      db.SetMetadata("total_issues_tracked", NatToString(count), now);
    }

    /** The loop of `fetch_and_store_issues`: upsert and count each item that is not a pull request. */
    method StoreIssueBatch(raws: seq<RawIssue>, now: string) returns (count: nat)
      requires db.Valid()
      modifies db
      ensures db.Valid()
      ensures count == IssueCount(raws) && db.issues == StoreIssues(old(db.issues), raws, now)
      ensures db.metadata == old(db.metadata) && db.prs == old(db.prs) && db.reviews == old(db.reviews)
      ensures db.comments == old(db.comments) && db.releases == old(db.releases)
    {
      count := 0;
      for i := 0 to |raws|
        invariant db.Valid() && count == IssueCount(raws[..i])
        invariant db.issues == StoreIssues(old(db.issues), raws[..i], now)
        invariant db.metadata == old(db.metadata)
        invariant db.prs == old(db.prs) && db.reviews == old(db.reviews)
        invariant db.comments == old(db.comments) && db.releases == old(db.releases)
      {
        StoreIssuesStep(old(db.issues), raws, i, now);
        IssueCountStep(raws, i);
        if !raws[i].isPullRequest {
          var ok := db.UpsertIssue(ProcessIssue(raws[i]), now);
          if ok {
            count := count + 1;
          }
        }
      }
      assert raws[..|raws|] == raws;
    }

    /** One pull request of the review phase: upsert each review it answered with, if any. */
    method StoreReviewsOf(n: int, data: Option<seq<RawReview>>, now: string) returns (stored: nat)
      requires db.Valid()
      modifies db
      ensures db.Valid()
      ensures stored == SubmittedCount(data.GetOr([]))
      ensures db.reviews == StoreReviews(old(db.reviews), n, data.GetOr([]), now)
      ensures db.prs == old(db.prs) && db.issues == old(db.issues) && db.comments == old(db.comments)
      ensures db.releases == old(db.releases) && db.metadata == old(db.metadata)
    {
      stored := 0;
      if data.None? || data.value == [] {
        return;
      }
      var raws := data.value;
      for j := 0 to |raws|
        invariant db.Valid() && stored == SubmittedCount(raws[..j])
        invariant db.reviews == StoreReviews(old(db.reviews), n, raws[..j], now)
        invariant db.prs == old(db.prs) && db.issues == old(db.issues) && db.comments == old(db.comments)
        invariant db.releases == old(db.releases) && db.metadata == old(db.metadata)
      {
        StoreReviewsStep(old(db.reviews), n, raws, j, now);
        var ok := db.UpsertReview(ProcessReview(raws[j], n), now);
        if ok {
          stored := stored + 1;
        }
      }
      assert raws[..|raws|] == raws;
    }

    /**
     * `fetch_and_store_reviews_for_all_prs`: for every stored pull request,
     * in the order `get_pull_requests()` lists them, store its reviews.
     * `listed` is that order.
     */
    method FetchAndStoreReviewsForAllPrs(fetch: int -> Option<seq<RawReview>>, now: string)
      returns (count: nat, ghost listed: seq<PullRequest>)
      requires db.Valid()
      modifies db
      ensures db.Valid()
      ensures Lists(listed, old(db.prs))
      ensures count == ReviewCount(Numbers(listed), fetch)
      ensures db.reviews == StoreAllReviews(old(db.reviews), Numbers(listed), fetch, now)
      ensures db.prs == old(db.prs) && db.issues == old(db.issues) && db.comments == old(db.comments)
      ensures db.releases == old(db.releases) && db.metadata == old(db.metadata)
    {
      var prs := db.GetPullRequests(None, None);
      assert MatchingIds(db.prs, None) == db.prs.Keys;
      listed := prs;
      count := StoreReviewsOfAll(Numbers(prs), fetch, now);
    }

    /** The loop of `fetch_and_store_reviews_for_all_prs` over the listed pull request numbers. */
    method StoreReviewsOfAll(numbers: seq<int>, fetch: int -> Option<seq<RawReview>>, now: string) returns (count: nat)
      requires db.Valid()
      modifies db
      ensures db.Valid()
      ensures count == ReviewCount(numbers, fetch)
      ensures db.reviews == StoreAllReviews(old(db.reviews), numbers, fetch, now)
      ensures db.prs == old(db.prs) && db.issues == old(db.issues) && db.comments == old(db.comments)
      ensures db.releases == old(db.releases) && db.metadata == old(db.metadata)
    {
      count := 0;
      for i := 0 to |numbers|
        invariant db.Valid() && count == ReviewCount(numbers[..i], fetch)
        invariant db.reviews == StoreAllReviews(old(db.reviews), numbers[..i], fetch, now)
        invariant db.prs == old(db.prs) && db.issues == old(db.issues) && db.comments == old(db.comments)
        invariant db.releases == old(db.releases) && db.metadata == old(db.metadata)
      {
        StoreAllReviewsStep(old(db.reviews), numbers, i, fetch, now);
        var stored := StoreReviewsOf(numbers[i], fetch(numbers[i]), now);
        count := count + stored;
      }
      assert numbers[..|numbers|] == numbers;
    }

    /**
     * `fetch_and_store_comments`: `None` when a comment's URL does not end in
     * a number (the `ValueError` propagates); the comments before it stay stored.
     */
    method FetchAndStoreComments(data: Option<seq<RawComment>>, now: string) returns (result: Option<nat>)
      requires db.Valid()
      modifies db
      ensures db.Valid()
      ensures data.None? || data.value == [] ==> result == Some(0) && db.comments == old(db.comments)
      ensures result == CommentPhase(data)
      ensures db.comments == StoreComments(old(db.comments), ParsedPrefix(data.GetOr([])), now)
      ensures db.prs == old(db.prs) && db.issues == old(db.issues) && db.reviews == old(db.reviews)
      ensures db.releases == old(db.releases) && db.metadata == old(db.metadata)
    {
      if data.None? || data.value == [] {
        assert ParsedPrefix(data.GetOr([])) == [];
        return Some(0);
      }
      result := StoreParsedComments(data.value, now);
    }

    /** The loop of `fetch_and_store_comments` over a non-empty batch. */
    method StoreParsedComments(raws: seq<RawComment>, now: string) returns (result: Option<nat>)
      requires db.Valid()
      modifies db
      ensures db.Valid()
      ensures var parsed := ParsedPrefix(raws);
        result == (if |parsed| < |raws| then None else Some(CommentCount(parsed)))
      ensures db.comments == StoreComments(old(db.comments), ParsedPrefix(raws), now)
      ensures db.prs == old(db.prs) && db.issues == old(db.issues) && db.reviews == old(db.reviews)
      ensures db.releases == old(db.releases) && db.metadata == old(db.metadata)
    {
      ghost var parsed := ParsedPrefix(raws);
      var count := 0;
      for i := 0 to |raws|
        invariant i <= |parsed|
        invariant db.Valid() && count == CommentCount(parsed[..i])
        invariant db.comments == StoreComments(old(db.comments), parsed[..i], now)
        invariant db.prs == old(db.prs) && db.issues == old(db.issues) && db.reviews == old(db.reviews)
        invariant db.releases == old(db.releases) && db.metadata == old(db.metadata)
      {
        var processed := ProcessComment(raws[i]);
        if processed.None? {
          assert i == |parsed|;
          assert parsed[..i] == parsed;
          return None;
        }
        assert i < |parsed| && processed.value == parsed[i];
        StoreCommentsStep(old(db.comments), parsed, i, now);
        var ok := db.UpsertComment(processed.value, now);
        if ok {
          count := count + 1;
        }
      }
      assert parsed[..|raws|] == parsed;
      result := Some(count);
    }

    /**
     * `fetch_and_store_releases`: an empty or failed fetch gives 0;
     * otherwise `None` when a release has a null name or body (the error
     * propagates), after the releases before it are stored.
     */
    method FetchAndStoreReleases(data: Option<seq<RawRelease>>, now: string) returns (result: Option<nat>)
      requires db.Valid()
      modifies db
      ensures db.Valid()
      ensures result == ReleasePhase(data)
      ensures db.releases == StoreReleases(old(db.releases), ReleasePrefix(data.GetOr([])), now)
      ensures db.prs == old(db.prs) && db.issues == old(db.issues) && db.reviews == old(db.reviews)
      ensures db.comments == old(db.comments) && db.metadata == old(db.metadata)
    {
      if data.None? || data.value == [] {
        assert ReleasePrefix(data.GetOr([])) == [];
        return Some(0);
      }
      result := StoreReleaseBatch(data.value, now);
    }

    /** The loop of `fetch_and_store_releases` over a non-empty batch, as written. */
    method StoreReleaseBatch(raws: seq<RawRelease>, now: string) returns (result: Option<nat>)
      requires db.Valid()
      modifies db
      ensures db.Valid()
      ensures result == (if |ReleasePrefix(raws)| < |raws| then None else Some(|raws|))
      ensures db.releases == StoreReleases(old(db.releases), ReleasePrefix(raws), now)
      ensures db.prs == old(db.prs) && db.issues == old(db.issues) && db.reviews == old(db.reviews)
      ensures db.comments == old(db.comments) && db.metadata == old(db.metadata)
    {
      ghost var parsed := ReleasePrefix(raws);
      var count := 0;
      for i := 0 to |raws|
        invariant i <= |parsed|
        invariant db.Valid() && count == i
        invariant db.releases == StoreReleases(old(db.releases), parsed[..i], now)
        invariant db.prs == old(db.prs) && db.issues == old(db.issues) && db.reviews == old(db.reviews)
        invariant db.comments == old(db.comments) && db.metadata == old(db.metadata)
      {
        var processed := ProcessReleaseAsWritten(raws[i]);
        if processed.None? {
          assert i == |parsed|;
          assert parsed[..i] == parsed;
          return None;
        }
        assert i < |parsed| && processed.value == parsed[i];
        StoreReleasesStep(old(db.releases), parsed, i, now);
        var ok := db.UpsertRelease(processed.value, now);
        if ok {
          count := count + 1;
        }
      }
      assert parsed[..|raws|] == parsed;
      result := Some(count);
    }

    /**
     * The release loop with null names and bodies read as empty text, as the
     * `''` default evidently intends: every release is stored and counted.
     */
    method StoreReleasesReadingNullAsEmpty(raws: seq<RawRelease>, now: string) returns (count: nat)
      requires db.Valid()
      modifies db
      ensures db.Valid()
      ensures count == |raws|
      ensures db.releases == StoreReleases(old(db.releases), ReleasesReadingNullAsEmpty(raws), now)
      ensures db.prs == old(db.prs) && db.issues == old(db.issues) && db.reviews == old(db.reviews)
      ensures db.comments == old(db.comments) && db.metadata == old(db.metadata)
    {
      ghost var all := ReleasesReadingNullAsEmpty(raws);
      count := 0;
      for i := 0 to |raws|
        invariant db.Valid() && count == i
        invariant db.releases == StoreReleases(old(db.releases), all[..i], now)
        invariant db.prs == old(db.prs) && db.issues == old(db.issues) && db.reviews == old(db.reviews)
        invariant db.comments == old(db.comments) && db.metadata == old(db.metadata)
      {
        StoreReleasesStep(old(db.releases), all, i, now);
        var ok := db.UpsertRelease(ProcessRelease(raws[i]), now);
        if ok {
          count := count + 1;
        }
      }
      assert all[..|raws|] == all;
    }

    /**
     * `fetch_add_del_data`: for every stored pull request whose detail fetch
     * is a non-empty object, re-upsert it with the four size fields from the
     * detail. Every such response is counted.
     */
    method FetchAddDelData(fetch: int -> Fetched, now: string) returns (count: nat, ghost listed: seq<PullRequest>)
      requires db.Valid()
      modifies db
      ensures db.Valid()
      ensures Lists(listed, old(db.prs))
      ensures count == UsableCount(Numbers(listed), fetch)
      ensures db.prs == StoreDetails(old(db.prs), listed, fetch, now)
      ensures db.prs.Keys == old(db.prs).Keys
      ensures forall i :: 0 <= i < |listed| ==>
        db.prs[listed[i].id]
        == (if Usable(fetch(listed[i].number)) then PrToRow(WithDetail(listed[i], fetch(listed[i].number).detail), now)
            else old(db.prs)[listed[i].id])
      ensures db.issues == old(db.issues) && db.reviews == old(db.reviews) && db.comments == old(db.comments)
      ensures db.releases == old(db.releases) && db.metadata == old(db.metadata)
    {
      var prs := db.GetPullRequests(None, None);
      assert MatchingIds(db.prs, None) == db.prs.Keys;
      listed := prs;
      count := StoreDetailsOfAll(prs, fetch, now);
      DetailsStored(old(db.prs), listed, fetch, now);
    }

    /** The loop of `fetch_add_del_data` over the listed pull requests. */
    method StoreDetailsOfAll(prs: seq<PullRequest>, fetch: int -> Fetched, now: string) returns (count: nat)
      requires db.Valid()
      modifies db
      ensures db.Valid()
      ensures count == UsableCount(Numbers(prs), fetch)
      ensures db.prs == StoreDetails(old(db.prs), prs, fetch, now)
      ensures db.issues == old(db.issues) && db.reviews == old(db.reviews) && db.comments == old(db.comments)
      ensures db.releases == old(db.releases) && db.metadata == old(db.metadata)
    {
      var numbers := Numbers(prs);
      count := 0;
      for i := 0 to |prs|
        invariant db.Valid() && count == UsableCount(numbers[..i], fetch)
        invariant db.prs == StoreDetails(old(db.prs), prs[..i], fetch, now)
        invariant db.issues == old(db.issues) && db.reviews == old(db.reviews) && db.comments == old(db.comments)
        invariant db.releases == old(db.releases) && db.metadata == old(db.metadata)
      {
        StoreDetailsStep(old(db.prs), prs, i, fetch, now);
        UsableCountStep(prs, i, fetch);
        var pr := prs[i];
        var data := fetch(pr.number);
        if Usable(data) {
          var _ := db.UpsertPullRequest(WithDetail(pr, data.detail), now);
          count := count + 1;
        }
      }
      assert numbers[..|prs|] == numbers;
      assert prs[..|prs|] == prs;
    }
  
    /** The pull request and issue phases of `sync_all_data`. */
    method SyncPrsAndIssues(r: Responses, now: string) returns (prCount: nat, issueCount: nat)
      requires db.Valid()
      modifies db
      ensures db.Valid()
      ensures prCount == |r.pulls.GetOr([])| && issueCount == IssueCount(r.issues.GetOr([]))
      ensures db.prs == PrTableAfter(old(db.prs), r.pulls, now)
      ensures db.issues == StoreIssues(old(db.issues), r.issues.GetOr([]), now)
      ensures db.metadata == MetadataAfterPhases(old(db.metadata), r.pulls, r.issues, now)
      ensures db.reviews == old(db.reviews) && db.comments == old(db.comments) && db.releases == old(db.releases)
    {
      prCount := FetchAndStorePullRequests(r.pulls, now);
      issueCount := FetchAndStoreIssues(r.issues, now);
    }

    /**
     * The first four phases of `sync_all_data`; `commentCount` is `None`
     * when the comments phase raised. `listed` is the order in which the
     * review phase walked the pull request table.
     */
    method SyncThroughComments(r: Responses, now: string)
      returns (prCount: nat, issueCount: nat, reviewCount: nat, commentCount: Option<nat>, ghost listed: seq<PullRequest>)
      requires db.Valid()
      modifies db
      ensures db.Valid()
      ensures prCount == |r.pulls.GetOr([])| && issueCount == IssueCount(r.issues.GetOr([]))
      ensures Lists(listed, PrTableAfter(old(db.prs), r.pulls, now))
      ensures reviewCount == ReviewCount(Numbers(listed), r.reviews)
      ensures commentCount == CommentPhase(r.comments)
      ensures db.prs == PrTableAfter(old(db.prs), r.pulls, now)
      ensures db.issues == StoreIssues(old(db.issues), r.issues.GetOr([]), now)
      ensures db.reviews == StoreAllReviews(old(db.reviews), Numbers(listed), r.reviews, now)
      ensures db.comments == StoreComments(old(db.comments), ParsedPrefix(r.comments.GetOr([])), now)
      ensures db.releases == old(db.releases)
      ensures db.metadata == MetadataAfterPhases(old(db.metadata), r.pulls, r.issues, now)
    {
      prCount, issueCount := SyncPrsAndIssues(r, now);
      reviewCount, listed := FetchAndStoreReviewsForAllPrs(r.reviews, now);
      commentCount := FetchAndStoreComments(r.comments, now);
    }

    /**
     * `sync_all_data`: pull requests, issues, reviews, comments, releases,
     * then additions and deletions, and only then `last_full_sync`. The
     * review and size phases walk the pull request table the first phase
     * left, in the orders `reviewed` and `detailed`. `None` when the comment
     * or the release phase raised, which ends the sync there.
     */
    method SyncAllData(r: Responses, now: string)
      returns (result: Option<SyncSummary>, ghost reviewed: seq<PullRequest>, ghost detailed: seq<PullRequest>)
      requires db.Valid()
      modifies db
      ensures db.Valid()
      ensures result.None? <==> CommentPhase(r.comments).None? || ReleasePhase(r.releases).None?
      ensures result.Some? ==> result.value == SyncSummary(
        |r.pulls.GetOr([])|, IssueCount(r.issues.GetOr([])), ReviewCount(Numbers(reviewed), r.reviews),
        CommentPhase(r.comments).value, ReleasePhase(r.releases).value,
        UsableCount(Numbers(detailed), r.details), now)
      ensures Lists(reviewed, PrTableAfter(old(db.prs), r.pulls, now))
      ensures result.Some? ==> Lists(detailed, PrTableAfter(old(db.prs), r.pulls, now))
      ensures db.prs == if result.Some? then StoreDetails(PrTableAfter(old(db.prs), r.pulls, now), detailed, r.details, now)
                        else PrTableAfter(old(db.prs), r.pulls, now)
      ensures db.issues == StoreIssues(old(db.issues), r.issues.GetOr([]), now)
      ensures db.reviews == StoreAllReviews(old(db.reviews), Numbers(reviewed), r.reviews, now)
      ensures db.comments == StoreComments(old(db.comments), ParsedPrefix(r.comments.GetOr([])), now)
      ensures db.releases == if CommentPhase(r.comments).None? then old(db.releases)
                             else StoreReleases(old(db.releases), ReleasePrefix(r.releases.GetOr([])), now)
      ensures db.metadata == if result.Some? then MetadataAfterPhases(old(db.metadata), r.pulls, r.issues, now)[FullSyncKey := MetaRow(now, now)]
                             else MetadataAfterPhases(old(db.metadata), r.pulls, r.issues, now)
      ensures result.Some? ==> db.GetLastSyncTime("full") == Some(now)
      ensures result.None? ==> db.GetLastSyncTime("full") == old(db.GetLastSyncTime("full"))
    {
      var prCount, issueCount, reviewCount, commentCount;
      prCount, issueCount, reviewCount, commentCount, reviewed := SyncThroughComments(r, now);
      PhaseKeysAreNotFull();
      PhasesKeepOtherKeys(old(db.metadata), r.pulls, r.issues, now, FullSyncKey);
      detailed := [];
      if commentCount.None? {
        return None, reviewed, detailed;
      }
      var releaseCount := FetchAndStoreReleases(r.releases, now);
      if releaseCount.None? {
        return None, reviewed, detailed;
      }
      var addCount;
      addCount, detailed := FetchAddDelData(r.details, now);
      db.UpdateLastSyncTime("full", now);
      result := Some(SyncSummary(prCount, issueCount, reviewCount, commentCount.value, releaseCount.value, addCount, now));
    }
  }
}
