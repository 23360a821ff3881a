/**
 * The shapes data takes on its way into the store: the fields of the GitHub
 * payloads the pipeline reads, the normalised dictionaries the `_process_*`
 * functions build, and the rows of the SQLite tables (`DatabaseSchema`).
 * Timestamps are whole seconds; the clock text written to `last_fetched_at`
 * is passed in as `now`.
 */
module Records {
  import opened Wrappers
  import JsonList
  import Classify
  import Breaking

  /** A JSON object member as `dict.get` sees it: absent, present but null, or a value. */
  datatype Field<T> = Missing | Null | Value(v: T)
  {
    /** `d.get(key)`. */
    function Get(): Option<T>
    {
      if Value? then Some(v) else None
    }

    /** `d.get(key, default)`: only an absent key takes the default. */
    function GetOr(default: T): Option<T>
    {
      match this
      case Missing => Some(default)
      case Null => None
      case Value(x) => Some(x)
    }
  }

  // ------------------------------------------------------ GitHub payloads

  /** The `user` object: `login` and the optional `type` ('User', 'Bot', ...). */
  datatype RawUser = RawUser(login: string, userType: Option<string>)

  /** An element of `GET pulls`; labels and assignees are already their names and logins. */
  datatype RawPr = RawPr(
    id: int, number: int, title: string, body: Option<string>, state: string,
    createdAt: int, updatedAt: int, closedAt: Option<int>, mergedAt: Option<int>,
    user: RawUser, baseRef: string, headRef: string,
    additions: Option<int>, deletions: Option<int>, changedFiles: Option<int>, commits: Option<int>,
    labels: seq<string>, assignees: seq<string>, draft: bool, mergeable: Option<bool>)

  /** An element of `GET issues`; `isPullRequest` says the object has a `pull_request` key. */
  datatype RawIssue = RawIssue(
    id: int, number: int, title: string, body: Option<string>, state: string,
    createdAt: int, updatedAt: int, closedAt: Option<int>, user: RawUser,
    assignee: Option<string>, labels: seq<string>, comments: Option<int>, isPullRequest: bool)

  datatype RawReview = RawReview(
    id: int, userLogin: string, state: string, submittedAt: Option<int>,
    body: Option<string>, commitId: Option<string>)

  datatype RawComment = RawComment(
    id: int, issueUrl: string, userLogin: string, body: Option<string>, createdAt: int, updatedAt: int)

  /** An element of `GET releases`; `name` and `body` may be absent or null. */
  datatype RawRelease = RawRelease(
    id: int, tagName: string, name: Field<string>, body: Field<string>, createdAt: int,
    publishedAt: Option<int>, draft: bool, prerelease: bool, authorLogin: string,
    tarballUrl: Option<string>, zipballUrl: Option<string>)

  // ------------------------------------------------- normalised records

  datatype PullRequest = PullRequest(
    id: int, number: int, title: string, body: Option<string>, state: string,
    createdAt: int, updatedAt: int, closedAt: Option<int>, mergedAt: Option<int>,
    userLogin: string, userType: Option<string>, baseBranch: string, headBranch: string,
    additions: Option<int>, deletions: Option<int>, changedFiles: Option<int>, commitsCount: Option<int>,
    labels: seq<string>, assignees: seq<string>, draft: bool, mergeable: Option<bool>)

  datatype Issue = Issue(
    id: int, number: int, title: string, body: Option<string>, state: string,
    createdAt: int, updatedAt: int, closedAt: Option<int>, userLogin: string, userType: Option<string>,
    assigneeLogin: Option<string>, labels: seq<string>, commentsCount: Option<int>, isExternalUser: bool)

  datatype Review = Review(
    id: int, prNumber: int, reviewerLogin: string, state: string, submittedAt: Option<int>,
    body: Option<string>, commitSha: Option<string>)

  datatype Comment = Comment(
    id: int, issueNumber: Option<int>, prNumber: Option<int>, userLogin: string, body: Option<string>,
    createdAt: int, updatedAt: int, commentType: string)

  datatype Release = Release(
    id: int, tagName: string, name: Option<string>, body: Option<string>, createdAt: int,
    publishedAt: Option<int>, draft: bool, prerelease: bool, authorLogin: string,
    tarballUrl: Option<string>, zipballUrl: Option<string>, isBreaking: bool)

  // --------------------------------------------------------- table rows

  /** A `pull_requests` row; `labels`/`assignees` hold JSON text. */
  datatype PrRow = PrRow(
    id: int, number: int, title: string, body: Option<string>, state: string,
    createdAt: int, updatedAt: int, closedAt: Option<int>, mergedAt: Option<int>,
    userLogin: string, userType: Option<string>, baseBranch: string, headBranch: string,
    additions: Option<int>, deletions: Option<int>, changedFiles: Option<int>, commitsCount: Option<int>,
    labels: string, assignees: string, draft: bool, mergeable: Option<bool>,
    isBreakingChange: bool, prType: string, lastFetchedAt: string)

  datatype IssueRow = IssueRow(
    id: int, number: int, title: string, body: Option<string>, state: string,
    createdAt: int, updatedAt: int, closedAt: Option<int>, userLogin: string, userType: Option<string>,
    assigneeLogin: Option<string>, labels: string, commentsCount: Option<int>,
    issueType: string, priority: string, isExternalUser: bool, lastFetchedAt: string)

  /** A `reviews` row: `submitted_at` is NOT NULL. */
  datatype ReviewRow = ReviewRow(
    id: int, prNumber: int, reviewerLogin: string, state: string, submittedAt: int,
    body: Option<string>, commitSha: Option<string>, lastFetchedAt: string)

  /** A `comments` row: `body` is NOT NULL. */
  datatype CommentRow = CommentRow(
    id: int, issueNumber: Option<int>, prNumber: Option<int>, userLogin: string, body: string,
    createdAt: int, updatedAt: int, commentType: string, lastFetchedAt: string)

  datatype ReleaseRow = ReleaseRow(
    id: int, tagName: string, name: Option<string>, body: Option<string>, createdAt: int,
    publishedAt: Option<int>, draft: bool, prerelease: bool, authorLogin: string,
    tarballUrl: Option<string>, zipballUrl: Option<string>, isBreaking: bool, lastFetchedAt: string)

  /** The values `upsert_pull_request` computes on every write from title, body and labels. */
  predicate PrDerivedFresh(row: PrRow)
  {
    var labels := JsonList.Deserialize(row.labels);
    row.prType == Classify.ClassifyPrType(row.title, labels).Name()
    && row.isBreakingChange == Breaking.IsBreakingChange(row.title, row.body, labels)
  }

  predicate IssueDerivedFresh(row: IssueRow)
  {
    var labels := JsonList.Deserialize(row.labels);
    row.issueType == Classify.ClassifyIssueType(row.title, labels).Name()
    && row.priority == Classify.PriorityFromLabels(labels).Name()
  }

  /** The comments table's CHECK: exactly one of the two parent numbers is set. */
  predicate OneParent(issueNumber: Option<int>, prNumber: Option<int>)
  {
    issueNumber.None? != prNumber.None?
  }

  /**
   * The row `upsert_pull_request` writes: lists as JSON text, `pr_type` and
   * `is_breaking_change` recomputed (a null body counts as empty), `now` as
   * `last_fetched_at`.
   */
  function PrToRow(pr: PullRequest, now: string): (row: PrRow)
    ensures row.id == pr.id && row.number == pr.number && row.lastFetchedAt == now
    ensures PrDerivedFresh(row)
  {
    JsonList.SerializeRoundTrip(pr.labels);
    PrRow(pr.id, pr.number, pr.title, pr.body, pr.state, pr.createdAt, pr.updatedAt,
          pr.closedAt, pr.mergedAt, pr.userLogin, pr.userType, pr.baseBranch, pr.headBranch,
          pr.additions, pr.deletions, pr.changedFiles, pr.commitsCount,
          JsonList.Serialize(pr.labels), JsonList.Serialize(pr.assignees), pr.draft, pr.mergeable,
          Breaking.IsBreakingChange(pr.title, pr.body, pr.labels),
          Classify.ClassifyPrType(pr.title, pr.labels).Name(), now)
  }

  /** A row as `get_pull_requests` hands it back: lists decoded from their JSON text. */
  function PrFromRow(row: PrRow): PullRequest
  {
    PullRequest(row.id, row.number, row.title, row.body, row.state, row.createdAt, row.updatedAt,
                row.closedAt, row.mergedAt, row.userLogin, row.userType, row.baseBranch, row.headBranch,
                row.additions, row.deletions, row.changedFiles, row.commitsCount,
                JsonList.Deserialize(row.labels), JsonList.Deserialize(row.assignees),
                row.draft, row.mergeable)
  }

  /** Reading a stored pull request back gives exactly what was written. */
  lemma PrRowRoundTrip(pr: PullRequest, now: string)
    ensures PrFromRow(PrToRow(pr, now)) == pr
  {
    JsonList.SerializeRoundTrip(pr.labels);
    JsonList.SerializeRoundTrip(pr.assignees);
  }

  /** Writing the same pull request at two times differs only in `last_fetched_at`. */
  lemma PrRowOnlyClockDiffers(pr: PullRequest, t1: string, t2: string)
    ensures PrToRow(pr, t1).(lastFetchedAt := t2) == PrToRow(pr, t2)
  {
  }

  /** The row `upsert_issue` writes: `issue_type` and `priority` recomputed from title and labels. */
  function IssueToRow(issue: Issue, now: string): (row: IssueRow)
    ensures row.id == issue.id && row.number == issue.number && row.lastFetchedAt == now
    ensures IssueDerivedFresh(row)
  {
    JsonList.SerializeRoundTrip(issue.labels);
    IssueRow(issue.id, issue.number, issue.title, issue.body, issue.state, issue.createdAt,
             issue.updatedAt, issue.closedAt, issue.userLogin, issue.userType, issue.assigneeLogin,
             JsonList.Serialize(issue.labels), issue.commentsCount,
             Classify.ClassifyIssueType(issue.title, issue.labels).Name(),
             Classify.PriorityFromLabels(issue.labels).Name(), issue.isExternalUser, now)
  }

  /** The row `upsert_review` writes; none when `submitted_at` is null (NOT NULL column). */
  function ReviewToRow(review: Review, now: string): (row: Option<ReviewRow>)
    ensures row.Some? <==> review.submittedAt.Some?
    ensures row.Some? ==> row.value.id == review.id && row.value.lastFetchedAt == now
  {
    match review.submittedAt
    case None => None
    case Some(at) =>
      Some(ReviewRow(review.id, review.prNumber, review.reviewerLogin, review.state, at,
                     review.body, review.commitSha, now))
  }

  /**
   * The row `upsert_comment` writes; none when the body is null (NOT NULL
   * column) or the parent numbers break the XOR check.
   */
  function CommentToRow(comment: Comment, now: string): (row: Option<CommentRow>)
    ensures row.Some? <==> comment.body.Some? && OneParent(comment.issueNumber, comment.prNumber)
    ensures row.Some? ==> row.value.id == comment.id && OneParent(row.value.issueNumber, row.value.prNumber)
  {
    if comment.body.None? || !OneParent(comment.issueNumber, comment.prNumber) then None
    else
      Some(CommentRow(comment.id, comment.issueNumber, comment.prNumber, comment.userLogin,
                      comment.body.value, comment.createdAt, comment.updatedAt, comment.commentType, now))
  }

  function ReleaseToRow(release: Release, now: string): (row: ReleaseRow)
    ensures row.id == release.id && row.tagName == release.tagName && row.lastFetchedAt == now
    ensures row.isBreaking == release.isBreaking
  {
    ReleaseRow(release.id, release.tagName, release.name, release.body, release.createdAt,
               release.publishedAt, release.draft, release.prerelease, release.authorLogin,
               release.tarballUrl, release.zipballUrl, release.isBreaking, now)
  }
}
