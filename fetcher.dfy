/**
 * `fetch_api` as the per-pull-request detail request sees it. The client
 * collects every page of a response with a loop appending each item of the decoded answer;
 * for a list endpoint that is the concatenation of the pages, but the
 * detail endpoint `pulls/{n}` answers with one JSON object, and iterating
 * over an object yields its keys.
 */
module Fetcher {
  import opened Wrappers
  import opened Records

  /** The members of the `pulls/{n}` object that `fetch_add_del_data` reads, and the names of the rest. */
  datatype PrDetail = PrDetail(
    additions: Field<int>, deletions: Field<int>, changedFiles: Field<int>, commits: Field<int>,
    otherKeys: seq<string>)

  /** What `fetch_api` hands back: `None`, a list, or (as intended for objects) the object itself. */
  datatype Fetched = Failed | Items(items: seq<string>) | Object(detail: PrDetail)

  function KeyIf(f: Field<int>, name: string): seq<string>
  {
    if f.Missing? then [] else [name]
  }

  /** The keys of a detail object, the order of JSON members aside. */
  function Keys(d: PrDetail): (r: seq<string>)
    ensures r == [] <==> d.additions.Missing? && d.deletions.Missing? && d.changedFiles.Missing? && d.commits.Missing? && d.otherKeys == []
  {
    KeyIf(d.additions, "additions") + KeyIf(d.deletions, "deletions")
    + KeyIf(d.changedFiles, "changed_files") + KeyIf(d.commits, "commits") + d.otherKeys
  }

  /** `fetch_api('pulls/{n}')` as written: the object is flattened into its list of keys. */
  function FetchDetailAsWritten(response: Option<PrDetail>): (r: Fetched)
    ensures response.None? <==> r.Failed?
    ensures response.Some? ==> r == Items(Keys(response.value))
  {
    match response
    case None => Failed
    case Some(d) => Items(Keys(d))
  }

  /** `fetch_api('pulls/{n}')` returning a single object unchanged. */
  function FetchDetail(response: Option<PrDetail>): (r: Fetched)
    ensures response.None? <==> r.Failed?
    ensures response.Some? ==> r.Object? && r.detail == response.value
  {
    match response
    case None => Failed
    case Some(d) => Object(d)
  }

  /** `pr_data and isinstance(pr_data, dict)`: a non-empty object. */
  predicate Usable(f: Fetched)
  {
    f.Object? && Keys(f.detail) != []
  }

  /** The number of the given pull requests whose detail fetch is usable. */
  function UsableCount(numbers: seq<int>, fetch: int -> Fetched): (n: nat)
    ensures n <= |numbers|
  {
    if numbers == [] then 0
    else UsableCount(numbers[..|numbers| - 1], fetch) + (if Usable(fetch(numbers[|numbers| - 1])) then 1 else 0)
  }

  /** With the client as written no detail response is ever usable, so nothing is counted. */
  lemma {:induction false} AsWrittenCountsNothing(numbers: seq<int>, responses: int -> Option<PrDetail>)
    ensures UsableCount(numbers, n => FetchDetailAsWritten(responses(n))) == 0
  {
    if numbers != [] {
      AsWrittenCountsNothing(numbers[..|numbers| - 1], responses);
    }
  }

  /** The number of the given pull requests whose detail request answered a non-empty object. */
  function AnsweredCount(numbers: seq<int>, responses: int -> Option<PrDetail>): nat
  {
    if numbers == [] then 0
    else
      var r := responses(numbers[|numbers| - 1]);
      AnsweredCount(numbers[..|numbers| - 1], responses) + (if r.Some? && Keys(r.value) != [] then 1 else 0)
  }

  /** With the object returned unchanged, every non-empty answer is counted. */
  lemma {:induction false} FixedCountsEveryAnswer(numbers: seq<int>, responses: int -> Option<PrDetail>)
    ensures UsableCount(numbers, n => FetchDetail(responses(n))) == AnsweredCount(numbers, responses)
  {
    if numbers != [] {
      FixedCountsEveryAnswer(numbers[..|numbers| - 1], responses);
    }
  }

  /** One pull request whose detail carries `additions` is counted by the fixed client and not by the one as written. */
  lemma DetailCountDiffers(n: int, a: int)
    ensures UsableCount([n], m => FetchDetail(Some(PrDetail(Value(a), Missing, Missing, Missing, [])))) == 1
    ensures UsableCount([n], m => FetchDetailAsWritten(Some(PrDetail(Value(a), Missing, Missing, Missing, [])))) == 0
  {
  }
}
