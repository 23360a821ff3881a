/**
 * The `_process_*` functions of the pipeline: each turns one GitHub payload
 * into the dictionary the store's upsert expects.
 */
module Normalize {
  import opened Wrappers
  import opened Text
  import opened Records

  /** `_process_pull_request`: a merge timestamp makes the state 'merged'. */
  function ProcessPullRequest(pr: RawPr): (r: PullRequest)
    ensures r.state == "merged" <==> pr.mergedAt.Some? || pr.state == "merged"
    ensures pr.mergedAt.None? ==> r.state == pr.state
    ensures r.labels == pr.labels && r.assignees == pr.assignees
    ensures r.id == pr.id && r.number == pr.number && r.userLogin == pr.user.login
  {
    PullRequest(
      pr.id, pr.number, pr.title, pr.body,
      if pr.mergedAt.Some? then "merged" else pr.state,
      pr.createdAt, pr.updatedAt, pr.closedAt, pr.mergedAt,
      pr.user.login, pr.user.userType, pr.baseRef, pr.headRef,
      pr.additions, pr.deletions, pr.changedFiles, pr.commits,
      pr.labels, pr.assignees, pr.draft, pr.mergeable)
  }

  /** `_process_issue`: external iff the author's type is 'User'. */
  function ProcessIssue(issue: RawIssue): (r: Issue)
    ensures r.isExternalUser <==> issue.user.userType == Some("User")
    ensures r.assigneeLogin.None? <==> issue.assignee.None?
    ensures r.labels == issue.labels && r.id == issue.id && r.number == issue.number
  {
    Issue(
      issue.id, issue.number, issue.title, issue.body, issue.state,
      issue.createdAt, issue.updatedAt, issue.closedAt, issue.user.login, issue.user.userType,
      issue.assignee, issue.labels, issue.comments,
      issue.user.userType == Some("User"))
  }

  /** `_process_review`: the review is attached to the pull request it was fetched for. */
  function ProcessReview(review: RawReview, prNumber: int): (r: Review)
    ensures r.prNumber == prNumber && r.id == review.id && r.submittedAt == review.submittedAt
  {
    Review(review.id, prNumber, review.userLogin, review.state, review.submittedAt,
           review.body, review.commitId)
  }

  /**
   * The last path segment of a URL read as a number; none
   * where the integer conversion would raise (an empty or non-digit segment).
   */
  function UrlNumber(url: string): (r: Option<nat>)
    ensures r.Some? ==> AllDigits(LastSegment(url)) && r.value == DigitsValue(LastSegment(url))
    ensures r.None? <==> LastSegment(url) == "" || !AllDigits(LastSegment(url))
  {
    var seg := LastSegment(url);
    if seg != "" && AllDigits(seg) then Some(DigitsValue(seg)) else None
  }

  /** A URL ending in a slash and the decimal text of `n` yields `n`, whatever precedes the slash. */
  lemma UrlNumberOfDecimal(prefix: string, n: nat)
    ensures UrlNumber(prefix + "/" + NatToString(n)) == Some(n)
  {
    var digits := NatToString(n);
    assert '/' !in digits by {
      forall i | 0 <= i < |digits| ensures digits[i] != '/' {
        assert IsDigit(digits[i]);
      }
    }
    LastSegmentAfterSlash(prefix, digits);
    NatToStringRoundTrip(n);
  }

  /**
   * `_process_comment`: a comment belongs to a pull request when 'pull'
   * occurs in its `issue_url`, otherwise to an issue; none when the number
   * at the end of the URL does not parse (the pipeline then raises).
   */
  function ProcessComment(comment: RawComment): (r: Option<Comment>)
    ensures r.Some? <==> UrlNumber(comment.issueUrl).Some?
    ensures r.Some? ==> OneParent(r.value.issueNumber, r.value.prNumber)
    ensures r.Some? ==> (r.value.commentType == "pr" <==> Contains(comment.issueUrl, "pull"))
    ensures r.Some? ==> (r.value.prNumber.Some? <==> Contains(comment.issueUrl, "pull"))
    ensures r.Some? && r.value.issueNumber.Some? ==> r.value.issueNumber == UrlNumber(comment.issueUrl)
    ensures r.Some? && r.value.prNumber.Some? ==> r.value.prNumber == UrlNumber(comment.issueUrl)
  {
    match UrlNumber(comment.issueUrl)
    case None => None
    case Some(n) =>
      var isPr := Contains(comment.issueUrl, "pull");
      Some(Comment(
        comment.id,
        if isPr then None else Some(n),
        if isPr then Some(n) else None,
        comment.userLogin, comment.body, comment.createdAt, comment.updatedAt,
        if isPr then "pr" else "issue"))
  }

  /**
   * A comment whose URL ends in `/` and a number is attached to that
   * number: as a pull request when the URL contains `pull`, else as an issue.
   */
  lemma CommentAttachedToUrlNumber(comment: RawComment, prefix: string, n: nat)
    requires comment.issueUrl == prefix + "/" + NatToString(n)
    ensures ProcessComment(comment).Some?
    ensures Contains(comment.issueUrl, "pull") ==>
      ProcessComment(comment).value.prNumber == Some(n) && ProcessComment(comment).value.issueNumber == None
    ensures !Contains(comment.issueUrl, "pull") ==>
      ProcessComment(comment).value.issueNumber == Some(n) && ProcessComment(comment).value.prNumber == None
  {
    UrlNumberOfDecimal(prefix, n);
  }

  /** What `'breaking' in (name.lower() + body.lower())` checks. */
  predicate MentionsBreaking(name: string, body: string)
  {
    Contains(Lower(name) + Lower(body), "breaking")
  }

  /**
   * `_process_release` as written: the empty-string default for name and body
   * covers only an absent key, so a null `name` or `body` raises (none here).
   */
  function ProcessReleaseAsWritten(release: RawRelease): (r: Option<Release>)
    ensures r.Some? <==> !release.name.Null? && !release.body.Null?
  {
    match (release.name.GetOr(""), release.body.GetOr(""))
    case (Some(name), Some(body)) =>
      Some(ReleaseOf(release, MentionsBreaking(name, body)))
    case _ => None
  }

  function ReleaseOf(release: RawRelease, isBreaking: bool): Release
  {
    Release(release.id, release.tagName, release.name.Get(), release.body.Get(), release.createdAt,
            release.publishedAt, release.draft, release.prerelease, release.authorLogin,
            release.tarballUrl, release.zipballUrl, isBreaking)
  }

  /**
   * `_process_release` with a null `name` or `body` read as empty text, as
   * the `''` default evidently intends. The name and body are joined without
   * a separator.
   */
  function ProcessRelease(release: RawRelease): (r: Release)
    ensures r.isBreaking <==> MentionsBreaking(release.name.Get().GetOr(""), release.body.Get().GetOr(""))
    ensures r.name == release.name.Get() && r.body == release.body.Get() && r.tagName == release.tagName
    ensures ProcessReleaseAsWritten(release).Some? ==> ProcessReleaseAsWritten(release) == Some(r)
  {
    ReleaseOf(release, MentionsBreaking(release.name.Get().GetOr(""), release.body.Get().GetOr("")))
  }

  /**
   * "breaking" may straddle the name and the body: whatever the split of the
   * word between the end of the lower-cased name and the start of the
   * lower-cased body (a null one read as empty), the release is breaking.
   */
  lemma {:induction false} BreakingAcrossNameAndBody(release: RawRelease, x: string, u: string, v: string, y: string)
    requires Lower(release.name.Get().GetOr("")) == x + u
    requires Lower(release.body.Get().GetOr("")) == v + y
    requires u + v == "breaking"
    ensures ProcessRelease(release).isBreaking
  {
    assert (x + u) + (v + y) == x + "breaking" + y;
    ContainsInfix(x, "breaking", y);
  }
}
