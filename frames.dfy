/**
 * `MetricsCalculator._get_data_as_df`: a table read with `SELECT *` (rows in
 * ascending id order) and cut to the time window. A table without rows gives
 * a frame without columns; otherwise the frame keeps the rows whose date is
 * at or after the window's start (all rows when there is no start).
 */
module Frames {
  import opened Wrappers
  import opened Collections

  /** A date of the window column; `None` is a NULL date, which is never at or after a start. */
  predicate InWindow(date: Option<int>, start: Option<int>)
  {
    start.None? || (date.Some? && date.value >= start.value)
  }

  /** A DataFrame: either the column-less `pd.DataFrame()` or rows under the table's columns. */
  datatype Frame<R> = Columnless | Rows(rows: seq<R>) {

    /** The rows of the frame; a column-less frame has none. */
    function Records(): seq<R>
    {
      if Columnless? then [] else rows
    }

    /** `df.empty`: true for both shapes of a frame without rows. */
    predicate IsEmpty()
    {
      |Records()| == 0
    }
  }

  /** Every later element of an increasing sequence exceeds its head. */
  lemma IncreasingTail(ids: seq<int>)
    requires Increasing(ids) && ids != []
    ensures Increasing(ids[1..])
    ensures forall k :: k in ids[1..] ==> ids[0] < k
  {
    forall k | k in ids[1..]
      ensures ids[0] < k
    {
      var j :| 0 <= j < |ids[1..]| && ids[1..][j] == k;
      assert ids[j + 1] == k;
    }
  }

  lemma PrependIncreasing(x: int, rest: seq<int>)
    requires Increasing(rest) && forall k :: k in rest ==> x < k
    ensures Increasing([x] + rest)
  {
    forall i, j | 0 <= i < j < |[x] + rest|
      ensures ([x] + rest)[i] < ([x] + rest)[j]
    {
      assert rest[j - 1] in rest;
    }
  }

  /** The ids among `ids` whose row is in the window, in the same order. */
  function KeepIds<R>(ids: seq<int>, t: map<int, R>, date: R -> Option<int>, start: Option<int>): (r: seq<int>)
    requires Increasing(ids)
    ensures Increasing(r)
    ensures forall k :: k in r <==> k in ids && k in t && InWindow(date(t[k]), start)
    ensures forall i :: 0 <= i < |r| ==> r[i] in t
  {
    if ids == [] then []
    else
      var rest := KeepIds(ids[1..], t, date, start);
      IncreasingTail(ids);
      if ids[0] in t && InWindow(date(t[ids[0]]), start) then PrependIncreasing(ids[0], rest); [ids[0]] + rest else rest
  }

  /** The ids of the rows of `t` in the window, ascending. */
  function WindowIds<R>(t: map<int, R>, date: R -> Option<int>, start: Option<int>): (ids: seq<int>)
    ensures Increasing(ids)
    ensures forall k :: k in ids <==> k in t && InWindow(date(t[k]), start)
    ensures forall i :: 0 <= i < |ids| ==> ids[i] in t
  {
    KeepIds(SortedElements(t.Keys), t, date, start)
  }

  /** The rows of `t` at `ids`, in that order. */
  function RowsAt<R>(t: map<int, R>, ids: seq<int>): (rows: seq<R>)
    requires forall i :: 0 <= i < |ids| ==> ids[i] in t
    ensures |rows| == |ids|
    ensures forall i :: 0 <= i < |ids| ==> rows[i] == t[ids[i]]
  {
    if ids == [] then [] else [t[ids[0]]] + RowsAt(t, ids[1..])
  }

  /**
   * `_get_data_as_df(table, date_column)`: column-less exactly when the
   * table has no rows; otherwise the window's rows in ascending id order.
   */
  function Window<R>(t: map<int, R>, date: R -> Option<int>, start: Option<int>): (f: Frame<R>)
    ensures f.Columnless? <==> |t| == 0
    ensures |f.Records()| == |WindowIds(t, date, start)|
    ensures forall i :: 0 <= i < |f.Records()| ==> f.Records()[i] == t[WindowIds(t, date, start)[i]]
  {
    if |t| == 0 then Columnless else Rows(RowsAt(t, WindowIds(t, date, start)))
  }

  /** The ids of the rows in the window. */
  function Selected<R>(t: map<int, R>, date: R -> Option<int>, start: Option<int>): set<int>
  {
    set k | k in t && InWindow(date(t[k]), start)
  }

  /** The ids of the rows in the window that satisfy `p`. */
  function Matching<R>(t: map<int, R>, date: R -> Option<int>, start: Option<int>, p: R -> bool): set<int>
  {
    set k | k in t && InWindow(date(t[k]), start) && p(t[k])
  }

  /** The values `login` takes on the rows in the window. */
  function Logins<R>(t: map<int, R>, date: R -> Option<int>, start: Option<int>, login: R -> string): set<string>
  {
    set k | k in t && InWindow(date(t[k]), start) :: login(t[k])
  }

  /** Without a start every row is kept, in ascending id order. */
  lemma {:induction false} KeepAllIds<R>(ids: seq<int>, t: map<int, R>, date: R -> Option<int>)
    requires Increasing(ids) && forall k :: k in ids ==> k in t
    ensures KeepIds(ids, t, date, None) == ids
  {
    if ids != [] {
      IncreasingTail(ids);
      var tail := ids[1..];
      assert ids == [ids[0]] + tail;
      KeepAllIds(tail, t, date);
    }
  }

  /** `days=None`: the frame holds the whole table. */
  lemma AllTimeKeepsEveryRow<R>(t: map<int, R>, date: R -> Option<int>)
    ensures |Window(t, date, None).Records()| == |t|
    ensures WindowIds(t, date, None) == SortedElements(t.Keys)
  {
    KeepAllIds(SortedElements(t.Keys), t, date);
  }

  /** The ids among `ids` whose row satisfies `p`. */
  function IdsWhere<R>(t: map<int, R>, ids: seq<int>, p: R -> bool): set<int>
  {
    set k | k in ids && k in t && p(t[k])
  }

  /** Splitting off the first of distinct ids: it is in the result iff its row satisfies `p`. */
  lemma IdsWhereFirst<R>(t: map<int, R>, ids: seq<int>, p: R -> bool)
    requires Increasing(ids) && ids != [] && ids[0] in t
    ensures ids[0] !in IdsWhere(t, ids[1..], p)
    ensures IdsWhere(t, ids, p) == (if p(t[ids[0]]) then {ids[0]} else {}) + IdsWhere(t, ids[1..], p)
  {
    IncreasingTail(ids);
    var tail := ids[1..];
    forall k
      ensures k in IdsWhere(t, ids, p) <==> k in IdsWhere(t, tail, p) || (k == ids[0] && p(t[ids[0]]))
    {
      assert k in ids <==> k == ids[0] || k in tail by {
        assert ids == [ids[0]] + tail;
      }
    }
  }

  /** Counting rows at distinct ids counts the ids whose row satisfies `p`. */
  lemma {:induction false} CountRowsAt<R>(t: map<int, R>, ids: seq<int>, p: R -> bool)
    requires Increasing(ids) && forall i :: 0 <= i < |ids| ==> ids[i] in t
    ensures Count(RowsAt(t, ids), p) == |IdsWhere(t, ids, p)|
  {
    if ids != [] {
      IncreasingTail(ids);
      var tail := ids[1..];
      assert forall i :: 0 <= i < |tail| ==> tail[i] == ids[i + 1];
      CountRowsAt(t, tail, p);
      var rows := RowsAt(t, ids);
      assert rows[1..] == RowsAt(t, tail);
      IdsWhereFirst(t, ids, p);
    }
  }

  /** Distinct ids are as many as their set. */
  lemma {:induction false} IncreasingCard(ids: seq<int>)
    requires Increasing(ids)
    ensures |set k | k in ids| == |ids|
  {
    if ids != [] {
      IncreasingCard(ids[1..]);
      assert (set k | k in ids) == {ids[0]} + (set k | k in ids[1..]);
      assert ids[0] !in (set k | k in ids[1..]);
    }
  }

  /** The frame has one row per row of the table in the window. */
  lemma WindowSize<R>(t: map<int, R>, date: R -> Option<int>, start: Option<int>)
    ensures |Window(t, date, start).Records()| == |Selected(t, date, start)|
  {
    var ids := WindowIds(t, date, start);
    IncreasingCard(ids);
    WindowIdsAreSelected(t, date, start);
  }

  lemma WindowIdsAreSelected<R>(t: map<int, R>, date: R -> Option<int>, start: Option<int>)
    ensures (set k | k in WindowIds(t, date, start)) == Selected(t, date, start)
  {
  }

  /** Counting the frame's rows that satisfy `p` counts the table's rows in the window that do. */
  lemma WindowCount<R>(t: map<int, R>, date: R -> Option<int>, start: Option<int>, p: R -> bool)
    ensures Count(Window(t, date, start).Records(), p) == |Matching(t, date, start, p)|
    ensures |Matching(t, date, start, p)| <= |Selected(t, date, start)|
  {
    var ids := WindowIds(t, date, start);
    if |t| != 0 {
      CountRowsAt(t, ids, p);
      WindowIdsWhere(t, date, start, p);
    } else {
      assert Matching(t, date, start, p) == {};
    }
    WindowSize(t, date, start);
    MatchingWithinSelected(t, date, start, p);
  }

  lemma WindowIdsWhere<R>(t: map<int, R>, date: R -> Option<int>, start: Option<int>, p: R -> bool)
    ensures IdsWhere(t, WindowIds(t, date, start), p) == Matching(t, date, start, p)
  {
  }

  lemma MatchingWithinSelected<R>(t: map<int, R>, date: R -> Option<int>, start: Option<int>, p: R -> bool)
    ensures |Matching(t, date, start, p)| <= |Selected(t, date, start)|
  {
    var m := Matching(t, date, start, p);
    var sel := Selected(t, date, start);
    assert sel == m + (sel - m);
  }

  /** The distinct values of a column of the frame are the values on the table's rows in the window. */
  lemma WindowImage<R>(t: map<int, R>, date: R -> Option<int>, start: Option<int>, login: R -> string)
    ensures Image(Window(t, date, start).Records(), login) == Logins(t, date, start, login)
  {
    if |t| == 0 {
      NoLoginsWithoutRows(t, date, start, login);
    } else {
      ImageOfWindowRows(t, date, start, login);
    }
  }

  lemma ImageOfWindowRows<R>(t: map<int, R>, date: R -> Option<int>, start: Option<int>, login: R -> string)
    ensures Image(RowsAt(t, WindowIds(t, date, start)), login) == Logins(t, date, start, login)
  {
    var ids := WindowIds(t, date, start);
    ImageIsLogins(t, ids, RowsAt(t, ids), date, start, login);
  }

  /** Rows taken at exactly the ids in the window show exactly the window's values. */
  lemma ImageIsLogins<R>(t: map<int, R>, ids: seq<int>, rows: seq<R>, date: R -> Option<int>, start: Option<int>, login: R -> string)
    requires |rows| == |ids| && forall i :: 0 <= i < |ids| ==> ids[i] in t && rows[i] == t[ids[i]]
    requires forall k :: k in ids <==> k in t && InWindow(date(t[k]), start)
    ensures Image(rows, login) == Logins(t, date, start, login)
  {
    ImageWithin(t, ids, rows, date, start, login);
    LoginsWithin(t, ids, rows, date, start, login);
  }

  lemma NoLoginsWithoutRows<R>(t: map<int, R>, date: R -> Option<int>, start: Option<int>, login: R -> string)
    requires |t| == 0
    ensures Logins(t, date, start, login) == {}
  {
    assert t.Keys == {};
  }

  lemma ImageWithin<R>(t: map<int, R>, ids: seq<int>, rows: seq<R>, date: R -> Option<int>, start: Option<int>, login: R -> string)
    requires |rows| == |ids| && forall i :: 0 <= i < |ids| ==> ids[i] in t && rows[i] == t[ids[i]]
    requires forall k :: k in ids ==> k in t && InWindow(date(t[k]), start)
    ensures Image(rows, login) <= Logins(t, date, start, login)
  {
    forall y | y in Image(rows, login)
      ensures y in Logins(t, date, start, login)
    {
      var i :| 0 <= i < |rows| && login(rows[i]) == y;
      var k := ids[i];
      assert k in ids;
    }
  }

  lemma LoginsWithin<R>(t: map<int, R>, ids: seq<int>, rows: seq<R>, date: R -> Option<int>, start: Option<int>, login: R -> string)
    requires |rows| == |ids| && forall i :: 0 <= i < |ids| ==> ids[i] in t && rows[i] == t[ids[i]]
    requires forall k :: k in t && InWindow(date(t[k]), start) ==> k in ids
    ensures Logins(t, date, start, login) <= Image(rows, login)
  {
    forall y | y in Logins(t, date, start, login)
      ensures y in Image(rows, login)
    {
      var k :| k in t && InWindow(date(t[k]), start) && login(t[k]) == y;
      assert k in ids;
      var i :| 0 <= i < |ids| && ids[i] == k;
      assert login(rows[i]) == y;
    }
  }
}
