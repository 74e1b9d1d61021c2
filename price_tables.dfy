/** A contract's price table as it is read from its file: timestamped rows,
    possibly with repeated timestamps, and the collapse that pandas'
    `groupby(level=0).last()` performs on it. */
module PriceTables {

  /** The four canonical price columns of one row. */
  datatype PriceRow = PriceRow(open: real, high: real, low: real, final: real)

  /** One line of a price file: its timestamp index and its prices. */
  datatype Line = Line(time: int, row: PriceRow)

  type Table = seq<Line>

  /** Strictly ascending timestamps: at most one row per timestamp. */
  ghost predicate Ascending(t: Table)
  {
    forall i, j :: 0 <= i < j < |t| ==> t[i].time < t[j].time
  }

  /** The timestamps present in a table. */
  ghost function Times(t: Table): set<int>
  {
    set l | l in t :: l.time
  }

  /** Reference meaning of "last row per timestamp": reading the table top to
      bottom, each line overwrites whatever the map held for its timestamp. */
  ghost function LastWins(t: Table): map<int, PriceRow>
  {
    if t == [] then map[] else LastWins(t[..|t| - 1])[t[|t| - 1].time := t[|t| - 1].row]
  }

  /** Line `i` is the last line of `t` with its timestamp. */
  ghost predicate IsLastAt(t: Table, i: int)
  {
    0 <= i < |t| && forall j :: i < j < |t| ==> t[j].time != t[i].time
  }

  /** The index of the last line of `t` with the given timestamp, or -1 when
      no line has it. */
  ghost function LastIndex(t: Table, time: int): (i: int)
    ensures -1 <= i < |t|
    ensures i == -1 <==> forall j :: 0 <= j < |t| ==> t[j].time != time
    ensures i >= 0 ==> t[i].time == time && IsLastAt(t, i)
    decreases |t|
  {
    if t == [] then -1
    else if t[|t| - 1].time == time then |t| - 1
    else LastIndex(t[..|t| - 1], time)
  }

  /** Every line after the first of an ascending table is later than it. */
  lemma AscendingTail(acc: Table)
    requires Ascending(acc) && acc != []
    ensures Ascending(acc[1..])
    ensures forall m :: m in acc[1..] ==> m.time > acc[0].time
  {
    forall m | m in acc[1..] ensures m.time > acc[0].time {
      var k :| 0 <= k < |acc[1..]| && acc[1..][k] == m;
      assert acc[k + 1] == m;
    }
  }

  /** Puts a line into an ascending table, replacing the line with the same
      timestamp if there is one. */
  function Insert(acc: Table, l: Line): (r: Table)
    requires Ascending(acc)
    ensures Ascending(r)
    ensures forall m :: m in r <==> m == l || (m in acc && m.time != l.time)
    decreases |acc|
  {
    if acc == [] then [l]
    else if l.time < acc[0].time then [l] + acc
    else if l.time == acc[0].time then
      AscendingTail(acc);
      assert acc == [acc[0]] + acc[1..];
      [l] + acc[1..]
    else
      AscendingTail(acc);
      var tail := Insert(acc[1..], l);
      assert forall k :: 0 <= k < |tail| ==> tail[k] in tail;
      assert acc == [acc[0]] + acc[1..];
      [acc[0]] + tail
  }

  /** The table with duplicate timestamps collapsed: one line per timestamp,
      taken from the last line that has it, in ascending timestamp order. */
  function Collapse(t: Table): (r: Table)
    ensures Ascending(r)
    ensures forall m :: m in r <==> m.time in LastWins(t) && LastWins(t)[m.time] == m.row
    decreases |t|
  {
    if t == [] then []
    else Insert(Collapse(t[..|t| - 1]), t[|t| - 1])
  }

  // ---------------------------------------------------------------------
  // The reference definition against line indices

  /** The two reference definitions agree: a timestamp has a last-wins row
      exactly when some line carries it, and that row is the one on the last
      line carrying it. */
  lemma {:induction false} LastWinsIsLastIndex(t: Table, time: int)
    ensures time in LastWins(t) <==> LastIndex(t, time) >= 0
    ensures time in LastWins(t) ==> LastWins(t)[time] == t[LastIndex(t, time)].row
    decreases |t|
  {
    if t != [] {
      var n := |t| - 1;
      LastWinsIsLastIndex(t[..n], time);
      if t[n].time != time {
        assert LastIndex(t, time) == LastIndex(t[..n], time);
        var i := LastIndex(t, time);
        assert i >= 0 ==> t[..n][i] == t[i];
      }
    }
  }

  /** The collapse keeps exactly the timestamps of its input. */
  lemma CollapseTimes(t: Table)
    ensures Times(Collapse(t)) == Times(t)
  {
    var c := Collapse(t);
    forall x ensures x in Times(c) <==> x in Times(t) {
      LastWinsIsLastIndex(t, x);
      if x in Times(t) {
        var l :| l in t && l.time == x;
        var i :| 0 <= i < |t| && t[i] == l;
        assert Line(x, LastWins(t)[x]) in c;
      }
    }
  }

  /** What reading a price file promises after the collapse: ascending and so
      one line per timestamp, exactly the timestamps of the file, and every
      line is the last line of the file with its timestamp. */
  lemma CollapseSpec(t: Table)
    ensures Ascending(Collapse(t))
    ensures Times(Collapse(t)) == Times(t)
    ensures forall k :: 0 <= k < |Collapse(t)| ==>
      LastIndex(t, Collapse(t)[k].time) >= 0 && Collapse(t)[k] == t[LastIndex(t, Collapse(t)[k].time)]
  {
    CollapseTimes(t);
    var c := Collapse(t);
    forall k | 0 <= k < |c|
      ensures LastIndex(t, c[k].time) >= 0 && c[k] == t[LastIndex(t, c[k].time)]
    {
      assert c[k] in c;
      LastWinsIsLastIndex(t, c[k].time);
    }
  }

  // ---------------------------------------------------------------------
  // Tables that are already collapsed

  lemma {:induction false} InsertAfterAll(acc: Table, l: Line)
    requires Ascending(acc)
    requires forall k :: 0 <= k < |acc| ==> acc[k].time < l.time
    ensures Insert(acc, l) == acc + [l]
    decreases |acc|
  {
    if acc != [] {
      InsertAfterAll(acc[1..], l);
      assert acc == [acc[0]] + acc[1..];
    }
  }

  /** A table with ascending timestamps is left as it is. */
  lemma {:induction false} CollapseAscending(t: Table)
    requires Ascending(t)
    ensures Collapse(t) == t
    decreases |t|
  {
    if t != [] {
      var n := |t| - 1;
      CollapseAscending(t[..n]);
      InsertAfterAll(t[..n], t[n]);
      assert t[..n] + [t[n]] == t;
    }
  }

  /** Collapsing twice is collapsing once. */
  lemma CollapseIdempotent(t: Table)
    ensures Collapse(Collapse(t)) == Collapse(t)
  {
    CollapseAscending(Collapse(t));
  }

  /** Two lines with one timestamp become the later line. */
  lemma LaterDuplicateWins(a: PriceRow, b: PriceRow, time: int)
    ensures Collapse([Line(time, a), Line(time, b)]) == [Line(time, b)]
  {
    var t := [Line(time, a), Line(time, b)];
    assert t[..1] == [Line(time, a)];
    assert t[..1][..0] == [];
  }
}
