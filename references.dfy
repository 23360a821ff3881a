/**
 * `extract_issue_numbers_from_text`: `re.findall` of
 * `(?:fix(?:es)?|close(?:s)?|resolve(?:s)?|reference(?:s)?)\s*#(\d+)` over
 * the lower-cased text, each captured digit run turned into an integer.
 */
module References {
  import opened Wrappers
  import opened Text

  /**
   * The keyword alternatives in the order the regular expression tries them:
   * each alternative first with its optional plural ending, then without.
   */
  const Forms: seq<string> :=
    ["fixes", "fix", "closes", "close", "resolves", "resolve", "references", "reference"]

  /** Length of the whitespace run `\s*` takes at the start of `s` (it is greedy). */
  function SpaceRun(s: string): (n: nat)
    ensures n <= |s| && AllSpace(s[..n]) && (n < |s| ==> !IsSpace(s[n]))
    decreases |s|
  {
    if s != [] && IsSpace(s[0]) then 1 + SpaceRun(s[1..]) else 0
  }

  /** Length of the digit run `\d+` takes at the start of `s` (it is greedy). */
  function DigitRun(s: string): (n: nat)
    ensures n <= |s| && AllDigits(s[..n]) && (n < |s| ==> !IsDigit(s[n]))
    decreases |s|
  {
    if s != [] && IsDigit(s[0]) then 1 + DigitRun(s[1..]) else 0
  }

  /** The number of '#' characters in `s`. */
  function Hashes(s: string): nat
    decreases |s|
  {
    if s == [] then 0 else (if s[0] == '#' then 1 else 0) + Hashes(s[1..])
  }

  lemma {:induction false} HashesSplit(s: string, n: nat)
    requires n <= |s|
    ensures Hashes(s) == Hashes(s[..n]) + Hashes(s[n..])
    decreases n
  {
    if n > 0 {
      assert s[..n][1..] == s[1..][..n - 1];
      assert s[n..] == s[1..][n - 1..];
      HashesSplit(s[1..], n - 1);
    }
  }

  lemma {:induction false} HashCounted(s: string, i: nat)
    requires i < |s| && s[i] == '#'
    ensures Hashes(s) >= 1
    decreases i
  {
    if i > 0 {
      HashCounted(s[1..], i - 1);
    }
  }

  /** `\s*#(\d+)` at the start of `s`: the captured number and the length matched. */
  function HashRef(s: string): (r: Option<(nat, nat)>)
    ensures r.Some? ==> 0 < r.value.1 <= |s| && '#' in s[..r.value.1]
  {
    var sp := SpaceRun(s);
    if sp < |s| && s[sp] == '#' then
      var r := DigitsRef(s[sp + 1..], sp + 1);
      if r.Some? then assert s[..r.value.1][sp] == '#'; r else None
    else None
  }

  /** `(\d+)` at the start of `t`, which sits `offset` characters into the match. */
  function DigitsRef(t: string, offset: nat): (r: Option<(nat, nat)>)
    ensures r.Some? ==> offset < r.value.1 <= offset + |t|
  {
    var d := DigitRun(t);
    if d == 0 then None else Some((DigitsValue(t[..d]), offset + d))
  }

  function Shift(r: Option<(nat, nat)>, offset: nat): (q: Option<(nat, nat)>)
    ensures q.Some? <==> r.Some?
    ensures q.Some? ==> q.value == (r.value.0, r.value.1 + offset)
  {
    if r.Some? then Some((r.value.0, r.value.1 + offset)) else None
  }

  /** The pattern at the start of `s` with the keyword written as `Forms[k]`. */
  function FormAt(s: string, k: nat): (r: Option<(nat, nat)>)
    requires k < |Forms|
    ensures r.Some? ==> 0 < r.value.1 <= |s| && Hashes(s[..r.value.1]) >= 1
  {
    var form := Forms[k];
    if StartsWith(s, form) then
      var r := Shift(HashRef(s[|form|..]), |form|);
      if r.Some? then ShiftedHash(s, |form|, r.value.1); r else None
    else None
  }

  /** The whole pattern at the start of `s`, trying the alternatives from `Forms[k]` on. */
  function RefFrom(s: string, k: nat): (r: Option<(nat, nat)>)
    ensures r.Some? ==> 0 < r.value.1 <= |s| && Hashes(s[..r.value.1]) >= 1
    decreases |Forms| - k
  {
    if k >= |Forms| then None
    else if FormAt(s, k).Some? then FormAt(s, k)
    else RefFrom(s, k + 1)
  }

  lemma {:induction false} ShiftedHash(s: string, start: nat, end: nat)
    requires start <= end <= |s| && '#' in s[start..][..end - start]
    ensures Hashes(s[..end]) >= 1
  {
    var j :| 0 <= j < end - start && s[start..][..end - start][j] == '#';
    assert s[..end][start + j] == '#';
    HashCounted(s[..end], start + j);
  }

  /** A match of the reference pattern at the start of `s`: (number, length). */
  function RefAt(s: string): (r: Option<(nat, nat)>)
    ensures r.Some? ==> 0 < r.value.1 <= |s| && Hashes(s[..r.value.1]) >= 1
  {
    RefFrom(s, 0)
  }

  /** `re.findall`: scan left to right; after a match continue where it ended. */
  function FindAll(s: string): (r: seq<nat>)
    ensures |r| <= Hashes(s)
    decreases |s|
  {
    if s == [] then []
    else match RefAt(s)
      case Some((v, n)) =>
        HashesSplit(s, n);
        [v] + FindAll(s[n..])
      case None => FindAll(s[1..])
  }

  function ExtractIssueNumbers(text: string): (r: seq<nat>)
    ensures text == "" ==> r == []
    ensures |r| <= Hashes(text)
  {
    if text == "" then [] else LowerKeepsHashes(text); FindAll(Lower(text))
  }

  lemma {:induction false} LowerKeepsHashes(s: string)
    ensures Hashes(Lower(s)) == Hashes(s)
    decreases |s|
  {
    if s != [] {
      assert Lower(s)[1..] == Lower(s[1..]);
      LowerKeepsHashes(s[1..]);
    }
  }

  // ------------------------------------------------------------ properties

  lemma {:induction false} NoHashNoHashes(s: string)
    requires '#' !in s
    ensures Hashes(s) == 0
    decreases |s|
  {
    if s != [] {
      NoHashNoHashes(s[1..]);
    }
  }

  /** Every reference needs a '#': a text without one yields no numbers. */
  lemma {:induction false} NoHashNoNumbers(text: string)
    requires '#' !in text
    ensures ExtractIssueNumbers(text) == []
  {
    NoHashNoHashes(text);
  }

  /** Each number returned was captured by a match starting at some offset. */
  lemma {:induction false} FoundNumbersAreMatches(s: string, v: nat)
    requires v in FindAll(s)
    ensures exists i :: 0 <= i < |s| && RefAt(s[i..]).Some? && RefAt(s[i..]).value.0 == v
    decreases |s|
  {
    match RefAt(s)
    case Some((w, n)) =>
      if v == w {
        assert s[0..] == s;
      } else {
        FoundNumbersAreMatches(s[n..], v);
        var i :| 0 <= i < |s[n..]| && RefAt(s[n..][i..]).Some? && RefAt(s[n..][i..]).value.0 == v;
        assert s[n..][i..] == s[n + i..];
      }
    case None =>
      FoundNumbersAreMatches(s[1..], v);
      var i :| 0 <= i < |s[1..]| && RefAt(s[1..][i..]).Some? && RefAt(s[1..][i..]).value.0 == v;
      assert s[1..][i..] == s[1 + i..];
  }

  /** `digits` followed by something that is not a digit: `\d+` takes exactly `digits`. */
  lemma {:induction false} DigitRunOf(digits: string, rest: string)
    requires AllDigits(digits) && (rest == "" || !IsDigit(rest[0]))
    ensures DigitRun(digits + rest) == |digits|
    decreases |digits|
  {
    if digits == [] {
      assert digits + rest == rest;
    } else {
      assert (digits + rest)[1..] == digits[1..] + rest;
      DigitRunOf(digits[1..], rest);
    }
  }

  /** A whitespace run before '#': `\s*` takes exactly that run. */
  lemma {:induction false} SpaceRunOf(ws: string, digits: string, rest: string)
    requires AllSpace(ws)
    ensures SpaceRun(ws + "#" + digits + rest) == |ws|
    decreases |ws|
  {
    var s := ws + "#" + digits + rest;
    if ws == [] {
      assert s[0] == '#';
    } else {
      assert s[1..] == ws[1..] + "#" + digits + rest;
      SpaceRunOf(ws[1..], digits, rest);
    }
  }

  /** Where the '#' sits in a reference, and what follows it. */
  lemma {:induction false} HashPosition(ws: string, digits: string, rest: string)
    ensures |ws| < |ws + "#" + digits + rest|
    ensures (ws + "#" + digits + rest)[|ws|] == '#'
    ensures (ws + "#" + digits + rest)[|ws| + 1..] == digits + rest
  {
    var s := ws + "#" + digits + rest;
    assert s == ws + "#" + (digits + rest);
  }

  /** A whitespace run, '#' and a digit run followed by a non-digit: `\s*#(\d+)` captures exactly those digits. */
  lemma {:induction false} HashRefOf(ws: string, digits: string, rest: string)
    requires AllSpace(ws) && digits != [] && AllDigits(digits) && (rest == "" || !IsDigit(rest[0]))
    ensures HashRef(ws + "#" + digits + rest) == Some((DigitsValue(digits), |ws| + 1 + |digits|))
  {
    SpaceRunOf(ws, digits, rest);
    HashPosition(ws, digits, rest);
    DigitsRefOf(digits, rest, |ws| + 1);
    HashThenDigits(ws + "#" + digits + rest, |ws|, digits + rest, DigitsValue(digits), |ws| + 1 + |digits|);
  }

  /** After the whitespace run comes '#': what follows it is the digit capture. */
  lemma {:induction false} HashThenDigits(s: string, sp: nat, after: string, n: nat, m: nat)
    requires SpaceRun(s) == sp < |s| && s[sp] == '#' && s[sp + 1..] == after
    requires DigitsRef(after, sp + 1) == Some((n, m))
    ensures HashRef(s) == Some((n, m))
  {
  }

  /** A digit run followed by a non-digit is captured whole. */
  lemma {:induction false} DigitsRefOf(digits: string, rest: string, offset: nat)
    requires digits != [] && AllDigits(digits) && (rest == "" || !IsDigit(rest[0]))
    ensures DigitsRef(digits + rest, offset) == Some((DigitsValue(digits), offset + |digits|))
  {
    DigitRunOf(digits, rest);
    assert (digits + rest)[..|digits|] == digits;
    DigitsRefAt(digits + rest, digits, offset);
  }

  /** `\d+` takes exactly `digits` from the start of `t`. */
  lemma {:induction false} DigitsRefAt(t: string, digits: string, offset: nat)
    requires DigitRun(t) == |digits| > 0 && t[..|digits|] == digits
    ensures DigitsRef(t, offset) == Some((DigitsValue(digits), offset + |digits|))
  {
  }

  /** What may follow a keyword in a reference: whitespace or the '#' itself. */
  predicate RefStart(c: char)
  {
    c == '#' || IsSpace(c)
  }

  lemma {:induction false} ReferenceTail(ws: string, digits: string, rest: string)
    requires AllSpace(ws)
    ensures var tail := ws + "#" + digits + rest;
      tail != [] && RefStart(tail[0]) && |ws| + 1 + |digits| <= |tail| && tail[|ws| + 1 + |digits|..] == rest
  {
    var tail := ws + "#" + digits + rest;
    if ws == [] {
      assert tail[0] == '#';
    } else {
      assert tail[0] == ws[0];
    }
    assert tail == ws + "#" + digits + rest;
  }

  /** A position where `s` and `Forms[j]` disagree, so `s` does not start with `Forms[j]`. */
  lemma {:induction false} Mismatch(s: string, j: nat, i: nat)
    requires j < |Forms| && i < |s| && i < |Forms[j]| && s[i] != Forms[j][i]
    ensures FormAt(s, j) == None
  {
  }

  /** Written as `Forms[k]` and followed by whitespace or '#', no earlier alternative matches. */
  lemma {:induction false} EarlierFormsMiss(k: nat, tail: string)
    requires k < |Forms| && tail != [] && RefStart(tail[0])
    ensures forall j :: 0 <= j < k ==> FormAt(Forms[k] + tail, j) == None
  {
    var s := Forms[k] + tail;
    forall j | 0 <= j < k ensures FormAt(s, j) == None {
      if Forms[j][0] != Forms[k][0] {
        Mismatch(s, j, 0);
      } else if k >= 6 && j < 6 {
        Mismatch(s, j, 2);
      } else {
        // Forms[j] is the plural of Forms[k]: where Forms[k] ends, s has whitespace or '#'.
        assert j == k - 1;
        assert s[|Forms[k]|] == tail[0];
        Mismatch(s, j, |Forms[k]|);
      }
    }
  }

  lemma {:induction false} SkipEarlier(s: string, k: nat)
    requires k <= |Forms|
    requires forall j :: 0 <= j < k ==> FormAt(s, j) == None
    ensures RefFrom(s, 0) == RefFrom(s, k)
  {
    if k > 0 {
      SkipEarlier(s, k - 1);
      assert FormAt(s, k - 1) == None;
      assert RefFrom(s, k - 1) == RefFrom(s, k);
    }
  }

  lemma {:induction false} FormMatches(k: nat, tail: string, n: nat, m: nat)
    requires k < |Forms| && HashRef(tail) == Some((n, m))
    ensures FormAt(Forms[k] + tail, k) == Some((n, |Forms[k]| + m))
  {
    assert (Forms[k] + tail)[..|Forms[k]|] == Forms[k];
    assert (Forms[k] + tail)[|Forms[k]|..] == tail;
  }

  lemma {:induction false} RefAtForm(k: nat, tail: string, n: nat, m: nat)
    requires k < |Forms| && tail != [] && RefStart(tail[0]) && HashRef(tail) == Some((n, m))
    ensures RefAt(Forms[k] + tail) == Some((n, |Forms[k]| + m))
  {
    EarlierFormsMiss(k, tail);
    SkipEarlier(Forms[k] + tail, k);
    FormMatches(k, tail, n, m);
  }

  /** A match at the start of `s` is reported, and scanning resumes where it ended. */
  lemma {:induction false} FindAllStep(s: string, v: nat, len: nat, rest: string)
    requires RefAt(s) == Some((v, len)) && s[len..] == rest
    ensures FindAll(s) == [v] + FindAll(rest)
  {
    assert s != [];
  }

  /** A character that cannot start a keyword is skipped. */
  lemma {:induction false} SkipNonKeyword(s: string)
    requires s != [] && s[0] != 'f' && s[0] != 'c' && s[0] != 'r'
    ensures FindAll(s) == FindAll(s[1..])
  {
    assert RefFrom(s, 0) == None by {
      forall j | 0 <= j < |Forms| ensures FormAt(s, j) == None {
        Mismatch(s, j, 0);
      }
      SkipEarlier(s, |Forms|);
    }
  }

  /** A keyword followed by a `#`-reference: its number is reported and the scan resumes after the reference. */
  lemma {:induction false} RefThenResume(k: nat, tail: string, n: nat, m: nat, rest: string)
    requires k < |Forms| && tail != [] && RefStart(tail[0]) && HashRef(tail) == Some((n, m))
    requires m <= |tail| && tail[m..] == rest
    ensures FindAll(Forms[k] + tail) == [n] + FindAll(rest)
  {
    RefAtForm(k, tail, n, m);
    FormThenResume(k, tail, n, m, rest);
  }

  /** `FindAllAfter` with the keyword written as `Forms[k]`. */
  lemma {:induction false} FormThenResume(k: nat, tail: string, n: nat, m: nat, rest: string)
    requires k < |Forms| && m <= |tail| && RefAt(Forms[k] + tail) == Some((n, |Forms[k]| + m)) && tail[m..] == rest
    ensures FindAll(Forms[k] + tail) == [n] + FindAll(rest)
  {
    FindAllAfter(Forms[k], tail, n, m, rest);
  }

  /**
   * Any keyword form, any whitespace run (none included), '#' and a digit
   * run, then text not starting with a digit: the number is reported and the
   * scan resumes right after the digits.
   */
  lemma {:induction false} KeywordReference(k: nat, ws: string, digits: string, rest: string)
    requires k < |Forms| && AllSpace(ws) && digits != [] && AllDigits(digits) && (rest == "" || !IsDigit(rest[0]))
    ensures FindAll(Forms[k] + (ws + "#" + digits + rest)) == [DigitsValue(digits)] + FindAll(rest)
  {
    ReferenceTail(ws, digits, rest);
    HashRefOf(ws, digits, rest);
    RefThenResume(k, ws + "#" + digits + rest, DigitsValue(digits), |ws| + 1 + |digits|, rest);
  }

  /** A match covering `prefix` and the first `m` characters of `tail` is reported, then the scan resumes in `tail`. */
  lemma {:induction false} FindAllAfter(prefix: string, tail: string, n: nat, m: nat, rest: string)
    requires m <= |tail| && RefAt(prefix + tail) == Some((n, |prefix| + m)) && tail[m..] == rest
    ensures FindAll(prefix + tail) == [n] + FindAll(rest)
  {
    DropPrefix(prefix, tail, m, rest);
    FindAllStep(prefix + tail, n, |prefix| + m, rest);
  }

  /** Dropping `prefix` and then `m` more characters leaves what follows `tail[..m]`. */
  lemma {:induction false} DropPrefix(prefix: string, tail: string, m: nat, rest: string)
    requires m <= |tail| && tail[m..] == rest
    ensures (prefix + tail)[|prefix| + m..] == rest
  {
  }

  /** Lower-casing leaves whitespace, '#' and digits alone. */
  lemma {:induction false} LowerReferenceTail(ws: string, digits: string, rest: string)
    requires AllSpace(ws) && AllDigits(digits)
    ensures Lower(ws + "#" + digits + rest) == ws + "#" + digits + Lower(rest)
  {
    LowerAppend(ws + "#" + digits, rest);
    LowerNoCapitals(ws + "#" + digits);
  }

  /**
   * `extract_issue_numbers_from_text`: a keyword form written in any case,
   * any whitespace run (none included), '#' and a digit run not followed by
   * a digit give that number first, and the rest of the text is scanned on
   * its own.
   */
  lemma {:induction false} ExtractsReference(keyword: string, k: nat, ws: string, digits: string, rest: string)
    requires k < |Forms| && Lower(keyword) == Forms[k]
    requires AllSpace(ws) && digits != [] && AllDigits(digits) && (rest == "" || !IsDigit(rest[0]))
    ensures ExtractIssueNumbers(keyword + ws + "#" + digits + rest) == [DigitsValue(digits)] + ExtractIssueNumbers(rest)
  {
    var tail := ws + "#" + digits + rest;
    assert keyword + ws + "#" + digits + rest == keyword + tail;
    LowerAppend(keyword, tail);
    LowerReferenceTail(ws, digits, rest);
    KeywordReference(k, ws, digits, Lower(rest));
    if rest == "" {
      assert FindAll(Lower(rest)) == [];
    }
  }

  /** A leading space is skipped: it cannot start a keyword. */
  lemma {:induction false} LeadingSpaceSkipped(text: string)
    ensures ExtractIssueNumbers(" " + text) == ExtractIssueNumbers(text)
  {
    LowerAppend(" ", text);
    assert Lower(" ") == " ";
    SkipNonKeyword(" " + Lower(text));
    assert (" " + Lower(text))[1..] == Lower(text);
    if text == "" {
      assert FindAll("") == [];
    }
  }

  // --------------------------------------------- a reference after prose

  /** Every keyword form is a lower-case word. */
  lemma {:induction false} FormLetters(j: nat, i: nat)
    requires j < |Forms| && i < |Forms[j]|
    ensures 'a' <= Forms[j][i] <= 'z'
  {
  }

  /** No keyword form ends a longer one: where the shorter would start, the longer has another letter. */
  lemma {:induction false} FormNotProperSuffix(j: nat, k: nat)
    requires j < |Forms| && k < |Forms| && |Forms[k]| < |Forms[j]|
    ensures Forms[j][|Forms[j]| - |Forms[k]|] != Forms[k][0]
  {
  }

  /** `\s*` stops at the first character that is not whitespace. */
  lemma {:induction false} SpaceRunStops(t: string, d: nat)
    requires d < |t| && !IsSpace(t[d])
    ensures SpaceRun(t) <= d
    decreases d
  {
    if d > 0 && IsSpace(t[0]) {
      assert t[1..][d - 1] == t[d];
      SpaceRunStops(t[1..], d - 1);
    }
  }

  /** A form ending where `Forms[k]` ends at `pos + |Forms[k]|` in `s`, with `pos > 0`, is not there. */
  lemma {:induction false} SameEndMisses(s: string, pos: nat, k: nat, j: nat)
    requires k < |Forms| && j < |Forms| && 0 < pos < |s| && |Forms[j]| == pos + |Forms[k]| && s[pos] == Forms[k][0]
    ensures FormAt(s, j) == None
  {
    FormNotProperSuffix(j, k);
    Mismatch(s, j, pos);
  }

  /** A form reaching past position `e`, where `s` has whitespace or '#', is not there. */
  lemma {:induction false} LongerFormMisses(s: string, e: nat, j: nat)
    requires j < |Forms| && e < |Forms[j]| && e < |s| && (s[e] == '#' || IsSpace(s[e]))
    ensures FormAt(s, j) == None
  {
    FormLetters(j, e);
    Mismatch(s, j, e);
  }

  /**
   * A form ending before position `e - 1`, where `s` has no whitespace, and
   * no '#' before `e`: `\s*#` cannot follow it.
   */
  lemma {:induction false} ShorterFormMisses(s: string, e: nat, j: nat)
    requires j < |Forms| && |Forms[j]| < e <= |s| && !IsSpace(s[e - 1])
    requires forall i :: 0 <= i < e ==> s[i] != '#'
    ensures FormAt(s, j) == None
  {
    var g := Forms[j];
    if StartsWith(s, g) {
      var t := s[|g|..];
      assert t[e - 1 - |g|] == s[e - 1];
      SpaceRunStops(t, e - 1 - |g|);
      assert t[SpaceRun(t)] == s[|g| + SpaceRun(t)];
    }
  }

  /**
   * No alternative matches at a position inside `b` when `b` has no '#' and
   * is followed by a keyword form, whitespace and '#': the match would have
   * to end its keyword where `Forms[k]` ends, and no form ends another.
   */
  lemma {:induction false} NoMatchBefore(b: string, k: nat, ws: string, after: string, j: nat)
    requires b != [] && '#' !in b && k < |Forms| && j < |Forms| && AllSpace(ws)
    ensures FormAt(b + (Forms[k] + (ws + "#" + after)), j) == None
  {
    var f := Forms[k];
    var s := b + (f + (ws + "#" + after));
    var e := |b| + |f|;
    if |Forms[j]| == e {
      assert s[|b|] == f[0];
      SameEndMisses(s, |b|, k, j);
    } else if |Forms[j]| > e {
      assert s[e] == (ws + "#" + after)[0];
      LongerFormMisses(s, e, j);
    } else {
      FormLetters(k, |f| - 1);
      assert s[e - 1] == f[|f| - 1];
      forall i | 0 <= i < e ensures s[i] != '#' {
        if i < |b| {
          assert s[i] == b[i];
        } else {
          FormLetters(k, i - |b|);
          assert s[i] == f[i - |b|];
        }
      }
      ShorterFormMisses(s, e, j);
    }
  }

  /** Text without '#' before a keyword form and its reference is scanned past without a match. */
  lemma {:induction false} SkipPrefixWithoutHash(b: string, k: nat, ws: string, after: string)
    requires '#' !in b && k < |Forms| && AllSpace(ws)
    ensures FindAll(b + (Forms[k] + (ws + "#" + after))) == FindAll(Forms[k] + (ws + "#" + after))
    decreases |b|
  {
    var x := Forms[k] + (ws + "#" + after);
    if b == [] {
      assert b + x == x;
    } else {
      forall j | 0 <= j < |Forms| ensures FormAt(b + x, j) == None {
        NoMatchBefore(b, k, ws, after, j);
      }
      SkipEarlier(b + x, |Forms|);
      assert (b + x)[1..] == b[1..] + x;
      SkipPrefixWithoutHash(b[1..], k, ws, after);
    }
  }

  /** Lower-casing creates no '#'. */
  lemma {:induction false} LowerNoHash(s: string)
    requires '#' !in s
    ensures '#' !in Lower(s)
  {
    forall i | 0 <= i < |s| ensures Lower(s)[i] != '#' {
      assert s[i] != '#';
    }
  }

  /** A keyword written in any case and its reference, lower-cased: the form, then the reference with its rest lower-cased. */
  lemma {:induction false} LowerKeywordTail(keyword: string, k: nat, ws: string, digits: string, rest: string)
    requires k < |Forms| && Lower(keyword) == Forms[k] && AllSpace(ws) && AllDigits(digits)
    ensures Lower(keyword + ws + "#" + digits + rest) == Forms[k] + (ws + "#" + (digits + Lower(rest)))
  {
    assert keyword + ws + "#" + digits + rest == keyword + (ws + "#" + digits + rest);
    LowerAppend(keyword, ws + "#" + digits + rest);
    LowerReferenceTail(ws, digits, rest);
  }

  /** Text without '#' in front of a keyword form and its reference changes nothing. */
  lemma {:induction false} SkipLoweredPrefix(before: string, x: string, k: nat, ws: string, after: string)
    requires '#' !in before && k < |Forms| && AllSpace(ws) && Lower(x) == Forms[k] + (ws + "#" + after)
    ensures ExtractIssueNumbers(before + x) == ExtractIssueNumbers(x)
  {
    assert x != "";
    LowerAppend(before, x);
    LowerNoHash(before);
    SkipPrefixWithoutHash(Lower(before), k, ws, after);
  }

  /**
   * A reference anywhere after text without '#' (prose such as "This PR
   * fixes #12"): its number comes first, and the rest of the text is
   * scanned on its own.
   */
  lemma {:induction false} ExtractsReferenceAfter(before: string, keyword: string, k: nat, ws: string, digits: string, rest: string)
    requires '#' !in before && k < |Forms| && Lower(keyword) == Forms[k]
    requires AllSpace(ws) && digits != [] && AllDigits(digits) && (rest == "" || !IsDigit(rest[0]))
    ensures ExtractIssueNumbers(before + keyword + ws + "#" + digits + rest) == [DigitsValue(digits)] + ExtractIssueNumbers(rest)
  {
    var x := keyword + ws + "#" + digits + rest;
    assert before + keyword + ws + "#" + digits + rest == before + x;
    LowerKeywordTail(keyword, k, ws, digits, rest);
    SkipLoweredPrefix(before, x, k, ws, digits + Lower(rest));
    ExtractsReference(keyword, k, ws, digits, rest);
  }

  /** Numbers come back in the order they appear in the text, whatever the case of the keywords. */
  lemma {:induction false} TwoReferencesInOrder(a: nat, b: nat)
    ensures ExtractIssueNumbers("Fixes #" + NatToString(a) + " CLOSES #" + NatToString(b)) == [a, b]
  {
    var da, db := NatToString(a), NatToString(b);
    var second := "CLOSES" + " " + "#" + db + "";
    assert "Fixes #" + da + " CLOSES #" + db == "Fixes" + " " + "#" + da + (" " + second);
    assert Lower("Fixes") == Forms[0] && Lower("CLOSES") == Forms[2];
    ExtractsReference("Fixes", 0, " ", da, " " + second);
    LeadingSpaceSkipped(second);
    ExtractsReference("CLOSES", 2, " ", db, "");
    NatToStringRoundTrip(a);
    NatToStringRoundTrip(b);
  }
}
