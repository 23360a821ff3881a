/**
 * The text form in which a list of strings (label names, assignee logins) is
 * kept in one column: a JSON array of JSON strings, `["a", "b"]`, with `", "`
 * between items as `json.dumps` writes it, and `[]` for the empty list.
 */
module JsonList {
  import opened Wrappers

  /** Characters that a JSON string writes behind a backslash. */
  predicate NeedsEscape(c: char)
  {
    c == '"' || c == '\\'
  }

  function Escape(s: string): string
  {
    if s == [] then []
    else (if NeedsEscape(s[0]) then ['\\', s[0]] else [s[0]]) + Escape(s[1..])
  }

  function Quote(s: string): string
  {
    "\"" + Escape(s) + "\""
  }

  function Items(xs: seq<string>): (r: string)
    requires xs != []
    ensures |r| >= 2 && r[0] == '"'
  {
    if |xs| == 1 then Quote(xs[0]) else Quote(xs[0]) + ", " + Items(xs[1..])
  }

  /** `serialize_labels` / `serialize_assignees`: the JSON text of a non-empty list, `[]` otherwise. */
  function Serialize(xs: seq<string>): (r: string)
    ensures |r| >= 2 && r[0] == '[' && r[|r| - 1] == ']'
    ensures r == "[]" <==> xs == []
  {
    if xs == [] then "[]" else "[" + Items(xs) + "]"
  }

  /**
   * Reads the inside of a JSON string up to its closing quote; gives the
   * decoded text and what follows the quote.
   */
  function ReadString(s: string): (r: Option<(string, string)>)
    ensures r.Some? ==> |r.value.1| < |s|
  {
    if s == [] then None
    else if s[0] == '"' then Some(([], s[1..]))
    else if s[0] == '\\' then
      if |s| >= 2 && NeedsEscape(s[1]) then
        match ReadString(s[2..])
        case None => None
        case Some((t, rest)) => Some(([s[1]] + t, rest))
      else None
    else
      match ReadString(s[1..])
      case None => None
      case Some((t, rest)) => Some(([s[0]] + t, rest))
  }

  /** Reads `"x", "y", ... "z"]` up to and including the closing bracket, which must end the text. */
  function ReadItems(s: string): Option<seq<string>>
    decreases |s|
  {
    if s == [] || s[0] != '"' then None
    else
      match ReadString(s[1..])
      case None => None
      case Some((x, rest)) =>
        if rest == "]" then Some([x])
        else if |rest| >= 2 && rest[..2] == ", " then
          match ReadItems(rest[2..])
          case None => None
          case Some(more) => Some([x] + more)
        else None
  }

  function Parse(text: string): Option<seq<string>>
  {
    if text == "[]" then Some([])
    else if |text| >= 1 && text[0] == '[' then ReadItems(text[1..])
    else None
  }

  /**
   * `deserialize_labels` / `deserialize_assignees`: the empty text and any text
   * that does not decode give the empty list.
   */
  function Deserialize(text: string): (r: seq<string>)
    ensures text == "" ==> r == []
  {
    if text == "" then []
    else
      match Parse(text)
      case Some(xs) => xs
      case None => []
  }

  /** Reading an escaped string back gives the string and stops right after its closing quote. */
  lemma {:induction false} ReadEscaped(x: string, rest: string)
    ensures ReadString(Escape(x) + "\"" + rest) == Some((x, rest))
  {
    if x == [] {
      assert Escape(x) + "\"" + rest == "\"" + rest;
    } else {
      ReadEscaped(x[1..], rest);
      EscapeFirst(x, rest);
      assert [x[0]] + x[1..] == x;
    }
  }

  /** The escaped form of `x` starts with `x[0]`, behind a backslash if it needs one. */
  lemma EscapeFirst(x: string, rest: string)
    requires x != []
    ensures var s := Escape(x) + "\"" + rest;
      var tail := Escape(x[1..]) + "\"" + rest;
      if NeedsEscape(x[0]) then |s| >= 2 && s[0] == '\\' && s[1] == x[0] && s[2..] == tail
      else s != [] && s[0] == x[0] && s[1..] == tail
  {
    var head := if NeedsEscape(x[0]) then ['\\', x[0]] else [x[0]];
    var tail := Escape(x[1..]) + "\"" + rest;
    assert Escape(x) == head + Escape(x[1..]);
    Regroup(head, Escape(x[1..]), "\"");
    Regroup(head, Escape(x[1..]) + "\"", rest);
    assert (head + tail)[|head|..] == tail;
  }

  lemma Regroup(a: string, b: string, c: string)
    ensures a + b + c == a + (b + c)
  {
  }

  lemma {:induction false} ReadItemsRoundTrip(xs: seq<string>)
    requires xs != []
    ensures ReadItems(Items(xs) + "]") == Some(xs)
    decreases |xs|
  {
    var s := Items(xs) + "]";
    if |xs| == 1 {
      assert s == "\"" + (Escape(xs[0]) + "\"" + "]");
      assert s[1..] == Escape(xs[0]) + "\"" + "]";
      ReadEscaped(xs[0], "]");
      assert [xs[0]] == xs;
    } else {
      var more := Items(xs[1..]) + "]";
      assert s == "\"" + (Escape(xs[0]) + "\"" + (", " + more));
      assert s[1..] == Escape(xs[0]) + "\"" + (", " + more);
      ReadEscaped(xs[0], ", " + more);
      assert (", " + more)[2..] == more;
      ReadItemsRoundTrip(xs[1..]);
      assert [xs[0]] + xs[1..] == xs;
    }
  }

  /** What is stored reads back unchanged: `deserialize(serialize(xs)) == xs`. */
  lemma SerializeRoundTrip(xs: seq<string>)
    ensures Deserialize(Serialize(xs)) == xs
  {
    if xs != [] {
      var inner := Items(xs) + "]";
      var text := Serialize(xs);
      assert text == "[" + inner && text[1..] == inner;
      assert text[1] == '"';
      assert Parse(text) == ReadItems(inner);
      ReadItemsRoundTrip(xs);
    }
  }

  /** Two lists with the same stored text are the same list. */
  lemma SerializeInjective(xs: seq<string>, ys: seq<string>)
    requires Serialize(xs) == Serialize(ys)
    ensures xs == ys
  {
    SerializeRoundTrip(xs);
    SerializeRoundTrip(ys);
  }
}
