/**
 * The write-time classifiers of `DatabaseHelper`: pull-request type, issue
 * type and issue priority. Each checks the lower-cased label names against a
 * fixed vocabulary per category first, then (type only) looks for keywords as
 * substrings of the lower-cased title, and falls back to a default.
 */
module Classify {
  import opened Text

  datatype PrType = Bugfix | Feature | Docs | Maintenance
  {
    /** The text stored in `pull_requests.pr_type`. */
    function Name(): string
    {
      match this
      case Bugfix => "bugfix"
      case Feature => "feature"
      case Docs => "docs"
      case Maintenance => "maintenance"
    }
  }

  datatype IssueType = Bug | Feature | Question | Documentation
  {
    /** The text stored in `issues.issue_type`. */
    function Name(): string
    {
      match this
      case Bug => "bug"
      case Feature => "feature"
      case Question => "question"
      case Documentation => "documentation"
    }
  }

  datatype Priority = Critical | High | Medium | Low
  {
    /** The text stored in `issues.priority`. */
    function Name(): string
    {
      match this
      case Critical => "critical"
      case High => "high"
      case Medium => "medium"
      case Low => "low"
    }
  }

  /** Some label, lower-cased, is one of `words`. */
  predicate HasLabel(labels: seq<string>, words: seq<string>)
  {
    exists w :: w in words && w in LowerAll(labels)
  }

  /** Some word of `words` is a substring of the lower-cased title. */
  predicate TitleHas(title: string, words: seq<string>)
  {
    exists w :: w in words && Contains(Lower(title), w)
  }

  // ---------------------------------------------------------------- PR type

  /** Position of a category in the order the classifier tries them. */
  function PrRank(c: PrType): nat
  {
    match c
    case Bugfix => 0
    case Feature => 1
    case Docs => 2
    case Maintenance => 3
  }

  function PrLabelWords(c: PrType): seq<string>
  {
    match c
    case Bugfix => ["bug", "bugfix", "fix"]
    case Feature => ["feature", "enhancement", "new-feature"]
    case Docs => ["documentation", "docs"]
    case Maintenance => ["maintenance", "refactor", "cleanup"]
  }

  function PrTitleWords(c: PrType): seq<string>
  {
    match c
    case Bugfix => ["fix", "bug", "patch", "hotfix"]
    case Feature => ["add", "feature", "implement", "new"]
    case Docs => ["doc", "readme", "documentation"]
    case Maintenance => ["refactor", "cleanup", "maintenance", "update"]
  }

  /** The categories some label names. */
  function PrTypesByLabel(labels: seq<string>): (r: set<PrType>)
    ensures forall c :: c in r <==> HasLabel(labels, PrLabelWords(c))
  {
    set c | c in {PrType.Bugfix, PrType.Feature, Docs, Maintenance} && HasLabel(labels, PrLabelWords(c))
  }

  /** The categories some title keyword names. */
  function PrTypesByTitle(title: string): (r: set<PrType>)
    ensures forall c :: c in r <==> TitleHas(title, PrTitleWords(c))
  {
    set c | c in {PrType.Bugfix, PrType.Feature, Docs, Maintenance} && TitleHas(title, PrTitleWords(c))
  }

  /**
   * `classify_pr_type`: a category named by a label wins over any title
   * keyword; among several, the earliest of bugfix, feature, docs,
   * maintenance wins; with no label and no keyword the type is feature.
   */
  function ClassifyPrType(title: string, labels: seq<string>): (r: PrType)
    ensures PrTypesByLabel(labels) != {} ==>
      r in PrTypesByLabel(labels) && forall c :: c in PrTypesByLabel(labels) ==> PrRank(r) <= PrRank(c)
    ensures PrTypesByLabel(labels) == {} && PrTypesByTitle(title) != {} ==>
      r in PrTypesByTitle(title) && forall c :: c in PrTypesByTitle(title) ==> PrRank(r) <= PrRank(c)
    ensures PrTypesByLabel(labels) == {} && PrTypesByTitle(title) == {} ==> r == PrType.Feature
  {
    if HasLabel(labels, PrLabelWords(Bugfix)) then Bugfix
    else if HasLabel(labels, PrLabelWords(PrType.Feature)) then PrType.Feature
    else if HasLabel(labels, PrLabelWords(Docs)) then Docs
    else if HasLabel(labels, PrLabelWords(Maintenance)) then Maintenance
    else if TitleHas(title, PrTitleWords(Bugfix)) then Bugfix
    else if TitleHas(title, PrTitleWords(PrType.Feature)) then PrType.Feature
    else if TitleHas(title, PrTitleWords(Docs)) then Docs
    else if TitleHas(title, PrTitleWords(Maintenance)) then Maintenance
    else PrType.Feature
  }

  /** Once a label names a category, the title no longer matters. */
  lemma PrTypeLabelsDecide(title1: string, title2: string, labels: seq<string>)
    requires PrTypesByLabel(labels) != {}
    ensures ClassifyPrType(title1, labels) == ClassifyPrType(title2, labels)
  {
  }

  // ------------------------------------------------------------- issue type

  function IssueRank(c: IssueType): nat
  {
    match c
    case Bug => 0
    case Feature => 1
    case Question => 2
    case Documentation => 3
  }

  function IssueLabelWords(c: IssueType): seq<string>
  {
    match c
    case Bug => ["bug", "error", "broken"]
    case Feature => ["feature", "enhancement", "feature-request"]
    case Question => ["question", "help", "support"]
    case Documentation => ["documentation", "docs"]
  }

  function IssueTitleWords(c: IssueType): seq<string>
  {
    match c
    case Bug => ["bug", "error", "broken", "issue", "problem"]
    case Feature => ["feature", "request", "add", "implement"]
    case Question => ["how", "question", "?"]
    case Documentation => ["doc", "documentation", "readme"]
  }

  function IssueTypesByLabel(labels: seq<string>): (r: set<IssueType>)
    ensures forall c :: c in r <==> HasLabel(labels, IssueLabelWords(c))
  {
    set c | c in {Bug, IssueType.Feature, Question, Documentation} && HasLabel(labels, IssueLabelWords(c))
  }

  function IssueTypesByTitle(title: string): (r: set<IssueType>)
    ensures forall c :: c in r <==> TitleHas(title, IssueTitleWords(c))
  {
    set c | c in {Bug, IssueType.Feature, Question, Documentation} && TitleHas(title, IssueTitleWords(c))
  }

  /**
   * `classify_issue_type`: labels first, then title keywords, each in the
   * order bug, feature, question, documentation; question by default.
   */
  function ClassifyIssueType(title: string, labels: seq<string>): (r: IssueType)
    ensures IssueTypesByLabel(labels) != {} ==>
      r in IssueTypesByLabel(labels) && forall c :: c in IssueTypesByLabel(labels) ==> IssueRank(r) <= IssueRank(c)
    ensures IssueTypesByLabel(labels) == {} && IssueTypesByTitle(title) != {} ==>
      r in IssueTypesByTitle(title) && forall c :: c in IssueTypesByTitle(title) ==> IssueRank(r) <= IssueRank(c)
    ensures IssueTypesByLabel(labels) == {} && IssueTypesByTitle(title) == {} ==> r == Question
  {
    if HasLabel(labels, IssueLabelWords(Bug)) then Bug
    else if HasLabel(labels, IssueLabelWords(IssueType.Feature)) then IssueType.Feature
    else if HasLabel(labels, IssueLabelWords(Question)) then Question
    else if HasLabel(labels, IssueLabelWords(Documentation)) then Documentation
    else if TitleHas(title, IssueTitleWords(Bug)) then Bug
    else if TitleHas(title, IssueTitleWords(IssueType.Feature)) then IssueType.Feature
    else if TitleHas(title, IssueTitleWords(Question)) then Question
    else if TitleHas(title, IssueTitleWords(Documentation)) then Documentation
    else Question
  }

  // --------------------------------------------------------------- priority

  /** Urgency: a larger rank is more urgent. */
  function Urgency(p: Priority): nat
  {
    match p
    case Critical => 3
    case High => 2
    case Medium => 1
    case Low => 0
  }

  function PriorityWords(p: Priority): seq<string>
  {
    match p
    case Critical => ["critical", "urgent", "high-priority"]
    case High => ["high", "important"]
    case Medium => ["medium", "normal"]
    case Low => ["low", "minor"]
  }

  /** The priorities some label names. */
  function PrioritiesByLabel(labels: seq<string>): (r: set<Priority>)
    ensures forall p :: p in r <==> HasLabel(labels, PriorityWords(p))
  {
    set p | p in {Critical, High, Medium, Low} && HasLabel(labels, PriorityWords(p))
  }

  /**
   * `get_priority_from_labels`: the most urgent priority some label names;
   * medium when no label names one.
   */
  function PriorityFromLabels(labels: seq<string>): (r: Priority)
    ensures PrioritiesByLabel(labels) != {} ==>
      r in PrioritiesByLabel(labels) && forall p :: p in PrioritiesByLabel(labels) ==> Urgency(p) <= Urgency(r)
    ensures PrioritiesByLabel(labels) == {} ==> r == Medium
  {
    if HasLabel(labels, PriorityWords(Critical)) then Critical
    else if HasLabel(labels, PriorityWords(High)) then High
    else if HasLabel(labels, PriorityWords(Medium)) then Medium
    else if HasLabel(labels, PriorityWords(Low)) then Low
    else Medium
  }

  // ------------------------------------------------------- case insensitivity

  lemma LowerAllIdempotent(labels: seq<string>)
    ensures LowerAll(LowerAll(labels)) == LowerAll(labels)
  {
    forall i | 0 <= i < |labels|
      ensures LowerAll(LowerAll(labels))[i] == LowerAll(labels)[i]
    {
      LowerIdempotent(labels[i]);
    }
  }

  lemma HasLabelIgnoresCase(labels: seq<string>, words: seq<string>)
    ensures HasLabel(LowerAll(labels), words) == HasLabel(labels, words)
  {
    LowerAllIdempotent(labels);
  }

  /** `classify_pr_type` sees the title and labels only through their lower-cased form. */
  lemma PrTypeIgnoresCase(title: string, labels: seq<string>)
    ensures ClassifyPrType(Lower(title), LowerAll(labels)) == ClassifyPrType(title, labels)
  {
    LowerAllIdempotent(labels);
    LowerIdempotent(title);
  }

  /** `classify_issue_type` sees the title and labels only through their lower-cased form. */
  lemma IssueTypeIgnoresCase(title: string, labels: seq<string>)
    ensures ClassifyIssueType(Lower(title), LowerAll(labels)) == ClassifyIssueType(title, labels)
  {
    LowerAllIdempotent(labels);
    LowerIdempotent(title);
  }

  /** `get_priority_from_labels` sees the labels only through their lower-cased form. */
  lemma PriorityIgnoresCase(labels: seq<string>)
    ensures PriorityFromLabels(LowerAll(labels)) == PriorityFromLabels(labels)
  {
    LowerAllIdempotent(labels);
  }
}
