/**
 * `is_breaking_change`: a pull request or release is breaking when one of its
 * labels is a breaking label, or when the lower-cased text "title body" holds
 * a match of one of six fixed regular expressions.
 */
module Breaking {
  import opened Wrappers
  import opened Text
  import Classify

  /** One element of the small regular-expression language the patterns use. */
  datatype Tok =
    | Lit(w: string)      // the characters of `w`, in order
    | Opt(c: char)        // `c?`
    | Spaces(min: nat)    // `\s*` (min 0) or `\s+` (min 1)

  type Pattern = seq<Tok>

  const BreakingLabels: seq<string> := ["breaking", "breaking-change", "major"]

  /** `breaking\s*change`, `breaking\s*api`, `backwards?\s*incompatible`,
    * `major\s*version`, `removed?\s+deprecated`, `api\s*change`. */
  const Patterns: seq<Pattern> := [
    [Lit("breaking"), Spaces(0), Lit("change")],
    [Lit("breaking"), Spaces(0), Lit("api")],
    [Lit("backward"), Opt('s'), Spaces(0), Lit("incompatible")],
    [Lit("major"), Spaces(0), Lit("version")],
    [Lit("remove"), Opt('d'), Spaces(1), Lit("deprecated")],
    [Lit("api"), Spaces(0), Lit("change")]
  ]

  /** Some prefix of `s` matches `p` (the backtracking matcher, stated as existence). */
  predicate MatchPrefix(s: string, p: Pattern)
    decreases |s|, |p|, 1
  {
    if p == [] then true
    else match p[0]
      case Lit(w) => StartsWith(s, w) && MatchPrefix(s[|w|..], p[1..])
      case Opt(c) => (|s| > 0 && s[0] == c && MatchPrefix(s[1..], p[1..])) || MatchPrefix(s, p[1..])
      case Spaces(m) => SpacesThen(s, m, p[1..])
  }

  /** `s` starts with a run of at least `m` whitespace characters after which `rest` matches. */
  predicate SpacesThen(s: string, m: nat, rest: Pattern)
    decreases |s|, |rest|, 2
  {
    (m == 0 && MatchPrefix(s, rest))
    || (|s| > 0 && IsSpace(s[0]) && SpacesThen(s[1..], if m > 0 then m - 1 else 0, rest))
  }

  /** `re.search(p, s)` succeeds. */
  predicate Search(s: string, p: Pattern)
    decreases |s|
  {
    MatchPrefix(s, p) || (|s| > 0 && Search(s[1..], p))
  }

  /** The text the patterns are searched in: the title, a space and the body (empty when null), lower-cased. */
  function CheckedText(title: string, body: Option<string>): (r: string)
    ensures |r| == |title| + 1 + |body.GetOr("")|
    ensures r == Lower(title) + " " + Lower(body.GetOr(""))
  {
    var b := body.GetOr("");
    assert title + " " + b == title + (" " + b);
    LowerAppend(title, " " + b);
    LowerAppend(" ", b);
    Lower(title + " " + b)
  }

  function IsBreakingChange(title: string, body: Option<string>, labels: seq<string>): (r: bool)
    ensures Classify.HasLabel(labels, BreakingLabels) ==> r
  {
    Classify.HasLabel(labels, BreakingLabels)
    || exists k :: 0 <= k < |Patterns| && Search(CheckedText(title, body), Patterns[k])
  }

  // ------------------------------------------------ search at some offset

  lemma {:induction false} SearchIff(s: string, p: Pattern)
    ensures Search(s, p) <==> exists i :: 0 <= i <= |s| && MatchPrefix(s[i..], p)
    decreases |s|
  {
    if Search(s, p) {
      if MatchPrefix(s, p) {
        assert s[0..] == s;
      } else {
        SearchIff(s[1..], p);
        var i :| 0 <= i <= |s[1..]| && MatchPrefix(s[1..][i..], p);
        assert s[1..][i..] == s[i + 1..];
      }
    }
    if exists i :: 0 <= i <= |s| && MatchPrefix(s[i..], p) {
      var i :| 0 <= i <= |s| && MatchPrefix(s[i..], p);
      if i == 0 {
        assert s[0..] == s;
      } else {
        assert s[1..][i - 1..] == s[i..];
        SearchIff(s[1..], p);
      }
    }
  }

  lemma {:induction false} SearchAfter(x: string, y: string, p: Pattern)
    requires MatchPrefix(y, p)
    ensures Search(x + y, p)
    decreases |x|
  {
    if x == [] {
      assert x + y == y;
    } else {
      assert (x + y)[1..] == x[1..] + y;
      SearchAfter(x[1..], y, p);
    }
  }

  // ------------------------------------------- texts that are breaking

  /** The text a pattern matches when each whitespace run is `spaces` and
    * each optional character is present exactly when `withOpt`. */
  function Instance(p: Pattern, spaces: string, withOpt: bool): string
  {
    if p == [] then "" else TokText(p[0], spaces, withOpt) + Instance(p[1..], spaces, withOpt)
  }

  function TokText(t: Tok, spaces: string, withOpt: bool): string
  {
    match t
    case Lit(w) => w
    case Opt(c) => if withOpt then [c] else ""
    case Spaces(_) => spaces
  }

  predicate SpacesFit(p: Pattern, spaces: string)
  {
    forall j :: 0 <= j < |p| && p[j].Spaces? ==> p[j].min <= |spaces|
  }

  lemma {:induction false} SpacesRun(spaces: string, m: nat, t: string, rest: Pattern)
    requires AllSpace(spaces) && m <= |spaces| && MatchPrefix(t, rest)
    ensures SpacesThen(spaces + t, m, rest)
    decreases |spaces|
  {
    if spaces == [] {
      assert spaces + t == t;
    } else {
      assert (spaces + t)[1..] == spaces[1..] + t;
      SpacesRun(spaces[1..], if m > 0 then m - 1 else 0, t, rest);
    }
  }

  /** Each pattern's instance, followed by any text, is matched by the pattern. */
  lemma {:induction false} InstanceMatches(p: Pattern, spaces: string, withOpt: bool, rest: string)
    requires AllSpace(spaces) && SpacesFit(p, spaces)
    ensures MatchPrefix(Instance(p, spaces, withOpt) + rest, p)
    decreases |p|
  {
    if p != [] {
      var tail := Instance(p[1..], spaces, withOpt) + rest;
      SpacesFitTail(p, spaces);
      InstanceMatches(p[1..], spaces, withOpt, rest);
      InstanceSplit(p, spaces, withOpt, rest);
      TokThen(p, spaces, withOpt, tail);
    }
  }

  lemma SpacesFitTail(p: Pattern, spaces: string)
    requires p != [] && SpacesFit(p, spaces)
    ensures SpacesFit(p[1..], spaces)
  {
    forall j | 0 <= j < |p[1..]| && p[1..][j].Spaces?
      ensures p[1..][j].min <= |spaces|
    {
      assert p[1..][j] == p[j + 1];
    }
  }

  lemma InstanceSplit(p: Pattern, spaces: string, withOpt: bool, rest: string)
    requires p != []
    ensures Instance(p, spaces, withOpt) + rest == TokText(p[0], spaces, withOpt) + (Instance(p[1..], spaces, withOpt) + rest)
  {
  }

  /** The text of the first token, followed by text the remaining tokens match, is matched by the whole pattern. */
  lemma TokThen(p: Pattern, spaces: string, withOpt: bool, tail: string)
    requires p != [] && AllSpace(spaces) && SpacesFit(p, spaces) && MatchPrefix(tail, p[1..])
    ensures MatchPrefix(TokText(p[0], spaces, withOpt) + tail, p)
  {
    var s := TokText(p[0], spaces, withOpt) + tail;
    match p[0]
    case Lit(w) =>
      assert s[..|w|] == w && s[|w|..] == tail;
    case Opt(c) =>
      if withOpt {
        assert s[1..] == tail;
      } else {
        assert s == tail;
      }
    case Spaces(m) =>
      assert p[0].min <= |spaces|;
      SpacesRun(spaces, m, tail, p[1..]);
  }

  /** Every character a pattern can match is already lower case. */
  predicate LowerPattern(p: Pattern)
  {
    forall j :: 0 <= j < |p| ==>
      match p[j]
      case Lit(w) => Lower(w) == w
      case Opt(c) => LowerChar(c) == c
      case Spaces(_) => true
  }

  lemma LowerWord(w: string)
    requires forall i :: 0 <= i < |w| ==> 'a' <= w[i] <= 'z'
    ensures Lower(w) == w
  {
  }

  lemma PatternsAreLower(k: nat)
    requires k < |Patterns|
    ensures LowerPattern(Patterns[k])
  {
    var p := Patterns[k];
    forall j | 0 <= j < |p| && p[j].Lit? ensures Lower(p[j].w) == p[j].w {
      LowerWord(p[j].w);
    }
  }

  lemma {:induction false} InstanceIsLower(p: Pattern, spaces: string, withOpt: bool)
    requires LowerPattern(p) && AllSpace(spaces)
    ensures Lower(Instance(p, spaces, withOpt)) == Instance(p, spaces, withOpt)
    decreases |p|
  {
    if p != [] {
      assert LowerPattern(p[1..]) by {
        forall j | 0 <= j < |p[1..]| ensures p[1..][j] == p[j + 1] { }
      }
      InstanceIsLower(p[1..], spaces, withOpt);
      var head := TokText(p[0], spaces, withOpt);
      LowerAppend(head, Instance(p[1..], spaces, withOpt));
      assert Lower(head) == head by {
        match p[0]
        case Lit(w) =>
        case Opt(c) =>
        case Spaces(_) =>
          forall i | 0 <= i < |spaces| ensures LowerChar(spaces[i]) == spaces[i] {
            assert IsSpace(spaces[i]);
          }
      }
    }
  }

  /**
   * `phrase` spells pattern `k` in any case: its lower-cased form is the
   * pattern's text with each whitespace run `spaces` (empty allowed where
   * the pattern has `\s*`, at least one character for `\s+`).
   */
  predicate Spelling(phrase: string, k: nat, spaces: string, withOpt: bool)
  {
    k < |Patterns| && AllSpace(spaces) && |spaces| >= (if k == 4 then 1 else 0)
    && Lower(phrase) == Instance(Patterns[k], spaces, withOpt)
  }

  lemma SpellingFits(k: nat, spaces: string)
    requires k < |Patterns| && |spaces| >= (if k == 4 then 1 else 0)
    ensures SpacesFit(Patterns[k], spaces)
  {
    var p := Patterns[k];
    forall j | 0 <= j < |p| && p[j].Spaces? ensures p[j].min <= |spaces| {
      if k != 4 {
        assert p[j].min == 0;
      }
    }
  }

  /** A spelling of pattern `k` anywhere in a text makes the lower-cased text match pattern `k`. */
  lemma SpellingIsFound(before: string, phrase: string, rest: string, k: nat, spaces: string, withOpt: bool)
    requires Spelling(phrase, k, spaces, withOpt)
    ensures Search(Lower(before + phrase + rest), Patterns[k])
  {
    var p := Patterns[k];
    SpellingFits(k, spaces);
    InstanceMatches(p, spaces, withOpt, Lower(rest));
    LowerSplit(before, phrase, rest);
    SearchAfter(Lower(before), Lower(phrase) + Lower(rest), p);
  }

  /** The pattern's own lower-case text is a spelling of it. */
  lemma InstanceIsSpelling(k: nat, spaces: string, withOpt: bool)
    requires k < |Patterns| && AllSpace(spaces) && |spaces| >= (if k == 4 then 1 else 0)
    ensures Spelling(Instance(Patterns[k], spaces, withOpt), k, spaces, withOpt)
  {
    PatternsAreLower(k);
    InstanceIsLower(Patterns[k], spaces, withOpt);
  }

  /**
   * A title holding a phrase one of the patterns matches (for instance
   * "Breaking   Change", "BREAKINGCHANGE", "removed deprecated") marks the
   * change as breaking, whatever surrounds it, whatever the body and the labels.
   */
  lemma PhraseInTitleIsBreaking(before: string, phrase: string, after: string, k: nat, spaces: string, withOpt: bool,
                                body: Option<string>, labels: seq<string>)
    requires Spelling(phrase, k, spaces, withOpt)
    ensures IsBreakingChange(before + phrase + after, body, labels)
  {
    var rest := after + " " + body.GetOr("");
    assert before + phrase + after + " " + body.GetOr("") == before + phrase + rest;
    SpellingIsFound(before, phrase, rest, k, spaces, withOpt);
    assert Search(CheckedText(before + phrase + after, body), Patterns[k]);
  }

  /** The same for a phrase in the body, whatever the title. */
  lemma PhraseInBodyIsBreaking(title: string, before: string, phrase: string, after: string, k: nat, spaces: string, withOpt: bool,
                               labels: seq<string>)
    requires Spelling(phrase, k, spaces, withOpt)
    ensures IsBreakingChange(title, Some(before + phrase + after), labels)
  {
    var head := title + " " + before;
    assert title + " " + (before + phrase + after) == head + phrase + after;
    SpellingIsFound(head, phrase, after, k, spaces, withOpt);
    assert Search(CheckedText(title, Some(before + phrase + after)), Patterns[k]);
  }

  lemma LowerSplit(before: string, phrase: string, rest: string)
    ensures Lower(before + phrase + rest) == Lower(before) + (Lower(phrase) + Lower(rest))
  {
    LowerAppend(before + phrase, rest);
    LowerAppend(before, phrase);
  }

  // ------------------------------------- what a match of a pattern is

  /** At most one whitespace run and one optional character, so one `spaces` and one `withOpt` describe any match. */
  predicate OneOfEach(p: Pattern)
  {
    forall i, j :: 0 <= i < j < |p| ==> !(p[i].Spaces? && p[j].Spaces?) && !(p[i].Opt? && p[j].Opt?)
  }

  predicate NoRun(p: Pattern)
  {
    forall j :: 0 <= j < |p| ==> !p[j].Spaces?
  }

  predicate NoOpt(p: Pattern)
  {
    forall j :: 0 <= j < |p| ==> !p[j].Opt?
  }

  lemma PatternsOneOfEach(k: nat)
    requires k < |Patterns|
    ensures OneOfEach(Patterns[k])
  {
  }

  lemma OneOfEachTail(p: Pattern)
    requires p != [] && OneOfEach(p)
    ensures OneOfEach(p[1..])
    ensures p[0].Spaces? ==> NoRun(p[1..])
    ensures p[0].Opt? ==> NoOpt(p[1..])
  {
    forall i, j | 0 <= i < j < |p[1..]|
      ensures !(p[1..][i].Spaces? && p[1..][j].Spaces?) && !(p[1..][i].Opt? && p[1..][j].Opt?)
    {
      assert p[1..][i] == p[i + 1] && p[1..][j] == p[j + 1];
    }
    forall j | 0 <= j < |p[1..]| ensures p[0].Spaces? ==> !p[1..][j].Spaces? {
      assert p[1..][j] == p[j + 1];
    }
    forall j | 0 <= j < |p[1..]| ensures p[0].Opt? ==> !p[1..][j].Opt? {
      assert p[1..][j] == p[j + 1];
    }
  }

  lemma SpacesFitCons(p: Pattern, spaces: string)
    requires p != [] && SpacesFit(p[1..], spaces) && (p[0].Spaces? ==> p[0].min <= |spaces|)
    ensures SpacesFit(p, spaces)
  {
    forall j | 1 <= j < |p| && p[j].Spaces? ensures p[j].min <= |spaces| {
      assert p[1..][j - 1] == p[j];
    }
  }

  lemma {:induction false} InstanceIgnoresSpaces(p: Pattern, a: string, b: string, withOpt: bool)
    requires NoRun(p)
    ensures Instance(p, a, withOpt) == Instance(p, b, withOpt)
    decreases |p|
  {
    if p != [] {
      assert NoRun(p[1..]) by {
        forall j | 0 <= j < |p[1..]| ensures !p[1..][j].Spaces? {
          assert p[1..][j] == p[j + 1];
        }
      }
      InstanceIgnoresSpaces(p[1..], a, b, withOpt);
    }
  }

  lemma {:induction false} InstanceIgnoresOpt(p: Pattern, spaces: string, o1: bool, o2: bool)
    requires NoOpt(p)
    ensures Instance(p, spaces, o1) == Instance(p, spaces, o2)
    decreases |p|
  {
    if p != [] {
      assert NoOpt(p[1..]) by {
        forall j | 0 <= j < |p[1..]| ensures !p[1..][j].Opt? {
          assert p[1..][j] == p[j + 1];
        }
      }
      InstanceIgnoresOpt(p[1..], spaces, o1, o2);
    }
  }

  /** Where `SpacesThen` puts the end of the whitespace run. */
  lemma {:induction false} SpacesSplit(s: string, m: nat, rest: Pattern) returns (j: nat)
    requires SpacesThen(s, m, rest)
    ensures m <= j <= |s| && AllSpace(s[..j]) && MatchPrefix(s[j..], rest)
    decreases |s|
  {
    if m == 0 && MatchPrefix(s, rest) {
      j := 0;
      assert s[0..] == s;
    } else {
      var j' := SpacesSplit(s[1..], if m > 0 then m - 1 else 0, rest);
      j := j' + 1;
      assert s[..j] == [s[0]] + s[1..][..j'];
      assert s[j..] == s[1..][j'..];
    }
  }

  /** The first token's text followed by an instance of the rest is an instance of the whole pattern. */
  lemma {:induction false} ConsInstance(s: string, p: Pattern, h: nat, n: nat, spaces: string, withOpt: bool)
    requires p != [] && h <= |s| && s[..h] == TokText(p[0], spaces, withOpt)
    requires n <= |s[h..]| && s[h..][..n] == Instance(p[1..], spaces, withOpt)
    ensures h + n <= |s| && s[..h + n] == Instance(p, spaces, withOpt)
  {
    assert s[..h + n] == s[..h] + s[h..][..n];
  }

  /** A match of a pattern at the start of `s` covers an instance of the pattern. */
  lemma {:induction false} MatchIsInstance(s: string, p: Pattern) returns (n: nat, spaces: string, withOpt: bool)
    requires MatchPrefix(s, p) && OneOfEach(p)
    ensures n <= |s| && AllSpace(spaces) && SpacesFit(p, spaces) && s[..n] == Instance(p, spaces, withOpt)
    decreases |p|
  {
    if p == [] {
      return 0, "", false;
    }
    OneOfEachTail(p);
    var h: nat, rest: nat;
    match p[0] {
    case Lit(w) =>
      h := |w|;
      rest, spaces, withOpt := MatchIsInstance(s[h..], p[1..]);
    case Opt(c) =>
      var o;
      if |s| > 0 && s[0] == c && MatchPrefix(s[1..], p[1..]) {
        h, withOpt := 1, true;
        assert s[..h] == [c];
      } else {
        h, withOpt := 0, false;
      }
      rest, spaces, o := MatchIsInstance(s[h..], p[1..]);
      InstanceIgnoresOpt(p[1..], spaces, o, withOpt);
    case Spaces(m) =>
      h := SpacesSplit(s, m, p[1..]);
      var sp;
      rest, sp, withOpt := MatchIsInstance(s[h..], p[1..]);
      InstanceIgnoresSpaces(p[1..], sp, s[..h], withOpt);
      spaces := s[..h];
    }
    ConsInstance(s, p, h, rest, spaces, withOpt);
    SpacesFitCons(p, spaces);
    n := h + rest;
  }

  /** Only pattern 4 (`removed?\s+deprecated`) needs a non-empty whitespace run. */
  lemma FitBound(k: nat, spaces: string)
    requires k < |Patterns| && SpacesFit(Patterns[k], spaces)
    ensures |spaces| >= (if k == 4 then 1 else 0)
  {
    if k == 4 {
      assert Patterns[k][2].Spaces?;
    }
  }

  /** A match of pattern `k` at the start of a text begins with a spelling of that pattern. */
  lemma MatchIsSpelling(s: string, k: nat)
    requires k < |Patterns| && MatchPrefix(s, Patterns[k])
    ensures exists n: nat, spaces: string, withOpt: bool :: n <= |s| && Spelling(s[..n], k, spaces, withOpt)
  {
    PatternsOneOfEach(k);
    var n, sp, o := MatchIsInstance(s, Patterns[k]);
    FitBound(k, sp);
    PatternsAreLower(k);
    InstanceIsLower(Patterns[k], sp, o);
    assert Spelling(s[..n], k, sp, o);
  }

  /** A match of pattern `k` at offset `i` of a text: a spelling of the pattern starts there. */
  lemma SpelledAt(text: string, i: int, k: nat)
    requires 0 <= i <= |text| && k < |Patterns| && MatchPrefix(text[i..], Patterns[k])
    ensures exists j: int, spaces: string, withOpt: bool :: i <= j <= |text| && Spelling(text[i..j], k, spaces, withOpt)
  {
    MatchIsSpelling(text[i..], k);
    var n: nat, sp, o :| n <= |text[i..]| && Spelling(text[i..][..n], k, sp, o);
    assert text[i..][..n] == text[i..i + n];
  }

  /** Without a breaking label, a breaking change has a spelling of some pattern in its checked text. */
  lemma BreakingHasSpelling(title: string, body: Option<string>, labels: seq<string>)
    requires IsBreakingChange(title, body, labels) && !Classify.HasLabel(labels, BreakingLabels)
    ensures exists k: nat, i: int, j: int, spaces: string, withOpt: bool ::
              0 <= i <= j <= |CheckedText(title, body)| && Spelling(CheckedText(title, body)[i..j], k, spaces, withOpt)
  {
    var text := CheckedText(title, body);
    var k :| 0 <= k < |Patterns| && Search(text, Patterns[k]);
    SearchIff(text, Patterns[k]);
    var i :| 0 <= i <= |text| && MatchPrefix(text[i..], Patterns[k]);
    SpelledAt(text, i, k);
  }

  /** A spelling of some pattern in the checked text makes the change breaking. */
  lemma SpellingMakesBreaking(title: string, body: Option<string>, labels: seq<string>, k: nat, i: int, j: int, spaces: string, withOpt: bool)
    requires 0 <= i <= j <= |CheckedText(title, body)| && Spelling(CheckedText(title, body)[i..j], k, spaces, withOpt)
    ensures IsBreakingChange(title, body, labels)
  {
    var text := CheckedText(title, body);
    SpellingIsFound(text[..i], text[i..j], text[j..], k, spaces, withOpt);
    assert text[..i] + text[i..j] + text[j..] == text;
    LowerIdempotent(title + " " + body.GetOr(""));
    assert Search(text, Patterns[k]);
  }

  /**
   * `is_breaking_change` is true exactly when a breaking label is present or
   * some stretch of the lower-cased "title body" text spells one of the six
   * patterns.
   */
  lemma BreakingIffSpelling(title: string, body: Option<string>, labels: seq<string>)
    ensures IsBreakingChange(title, body, labels) <==>
      Classify.HasLabel(labels, BreakingLabels) ||
      exists k: nat, i: int, j: int, spaces: string, withOpt: bool :: 0 <= i <= j <= |CheckedText(title, body)|
        && Spelling(CheckedText(title, body)[i..j], k, spaces, withOpt)
  {
    if IsBreakingChange(title, body, labels) && !Classify.HasLabel(labels, BreakingLabels) {
      BreakingHasSpelling(title, body, labels);
    }
    if exists k: nat, i: int, j: int, spaces: string, withOpt: bool :: 0 <= i <= j <= |CheckedText(title, body)|
        && Spelling(CheckedText(title, body)[i..j], k, spaces, withOpt) {
      var k: nat, i: int, j: int, sp, o :| 0 <= i <= j <= |CheckedText(title, body)| && Spelling(CheckedText(title, body)[i..j], k, sp, o);
      SpellingMakesBreaking(title, body, labels, k, i, j, sp, o);
    }
  }

  // --------------------------------------- texts that are not breaking

  /** Some literal part of `p` spells the character `c`. */
  predicate Spells(p: Pattern, c: char)
  {
    exists j :: 0 <= j < |p| && p[j].Lit? && c in p[j].w
  }

  lemma {:induction false} MatchNeedsLetters(s: string, p: Pattern, c: char)
    requires MatchPrefix(s, p) && Spells(p, c)
    ensures c in s
    decreases |s|, |p|, 1
  {
    var j :| 0 <= j < |p| && p[j].Lit? && c in p[j].w;
    if j > 0 {
      assert p[1..][j - 1] == p[j];
      assert Spells(p[1..], c);
    }
    match p[0]
    case Lit(w) =>
      if j > 0 {
        MatchNeedsLetters(s[|w|..], p[1..], c);
      } else {
        var i :| 0 <= i < |w| && w[i] == c;
        assert s[i] == s[..|w|][i];
      }
    case Opt(d) =>
      if |s| > 0 && s[0] == d && MatchPrefix(s[1..], p[1..]) {
        MatchNeedsLetters(s[1..], p[1..], c);
      } else {
        MatchNeedsLetters(s, p[1..], c);
      }
    case Spaces(m) =>
      SpacesNeedLetters(s, m, p[1..], c);
  }

  lemma {:induction false} SpacesNeedLetters(s: string, m: nat, rest: Pattern, c: char)
    requires SpacesThen(s, m, rest) && Spells(rest, c)
    ensures c in s
    decreases |s|, |rest|, 2
  {
    if m == 0 && MatchPrefix(s, rest) {
      MatchNeedsLetters(s, rest, c);
    } else {
      SpacesNeedLetters(s[1..], if m > 0 then m - 1 else 0, rest, c);
    }
  }

  lemma {:induction false} SearchNeedsLetters(s: string, p: Pattern, c: char)
    requires Search(s, p) && Spells(p, c)
    ensures c in s
    decreases |s|
  {
    if MatchPrefix(s, p) {
      MatchNeedsLetters(s, p, c);
    } else {
      SearchNeedsLetters(s[1..], p, c);
    }
  }

  lemma EveryPatternSpellsA(k: nat)
    requires k < |Patterns|
    ensures Spells(Patterns[k], 'a')
  {
    var p := Patterns[k];
    if k == 4 {
      assert p[3].w[6] == 'a';
    } else {
      assert p[0].w[if k == 5 then 0 else if k <= 1 then 3 else 1] == 'a';
    }
  }

  /**
   * Every pattern spells an 'a', so without a breaking label a title and
   * body with no 'a' in either case are never breaking.
   */
  lemma NoLetterAIsNotBreaking(title: string, body: Option<string>, labels: seq<string>)
    requires !Classify.HasLabel(labels, BreakingLabels)
    requires 'a' !in title && 'A' !in title && 'a' !in body.GetOr("") && 'A' !in body.GetOr("")
    ensures !IsBreakingChange(title, body, labels)
  {
    var text := CheckedText(title, body);
    var raw := title + " " + body.GetOr("");
    assert 'a' !in text by {
      forall i | 0 <= i < |text| ensures text[i] != 'a' {
        assert raw[i] != 'a' && raw[i] != 'A' by {
          if i < |title| { assert raw[i] == title[i]; }
          else if i > |title| { assert raw[i] == body.GetOr("")[i - |title| - 1]; }
        }
      }
    }
    forall k | 0 <= k < |Patterns| ensures !Search(text, Patterns[k]) {
      EveryPatternSpellsA(k);
      if Search(text, Patterns[k]) {
        SearchNeedsLetters(text, Patterns[k], 'a');
      }
    }
  }

  // ------------------------------------------------------ case insensitivity

  lemma BreakingIgnoresCase(title: string, body: Option<string>, labels: seq<string>)
    ensures IsBreakingChange(Lower(title), if body.Some? then Some(Lower(body.value)) else None, LowerAll(labels))
         == IsBreakingChange(title, body, labels)
  {
    CheckedTextIgnoresCase(title, body);
    Classify.HasLabelIgnoresCase(labels, BreakingLabels);
  }

  lemma CheckedTextIgnoresCase(title: string, body: Option<string>)
    ensures CheckedText(Lower(title), if body.Some? then Some(Lower(body.value)) else None) == CheckedText(title, body)
  {
    var lb: Option<string> := if body.Some? then Some(Lower(body.value)) else None;
    assert lb.GetOr("") == Lower(body.GetOr(""));
    LowerAppend(title, " " + body.GetOr(""));
    LowerAppend(Lower(title), " " + lb.GetOr(""));
    LowerAppend(" ", body.GetOr(""));
    LowerAppend(" ", lb.GetOr(""));
    LowerIdempotent(title);
    LowerIdempotent(body.GetOr(""));
    assert title + " " + body.GetOr("") == title + (" " + body.GetOr(""));
    assert Lower(title) + " " + lb.GetOr("") == Lower(title) + (" " + lb.GetOr(""));
  }
}
