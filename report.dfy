/** port_scanner.py output layout: the progress bar of `update_on_press`
    (line 45) and the column widths of the final table (lines 174-178). */
module Report {
  import opened Utils

  const LeftEdge: char := '\U{2595}'    // '▕'
  const Done: char := '\U{2593}'        // '▓'
  const Todo: char := '\U{2591}'        // '░'
  const RightEdge: char := '\U{258F}'   // '▏'

  /** `'▕' + completed*'▓' + (100 - completed)*'░' + '▏'`; Python repeats a
      string a negative number of times as the empty string. The trailing
      newline of the printed line belongs to the output, not to the bar,
      and is not part of this string. */
  function Bar(completed: int): (r: string)
    ensures |r| == 2 + Max(0, completed) + Max(0, 100 - completed)
    ensures r[0] == LeftEdge && r[|r| - 1] == RightEdge
  {
    [LeftEdge] + Repeat(Done, completed) + Repeat(Todo, 100 - completed) + [RightEdge]
  }

  /** For a percentage in 0..100 the bar has exactly 100 cells between its
      edges (102 characters): `completed` done cells, then the rest to do. */
  lemma BarLayout(completed: int)
    requires 0 <= completed <= 100
    ensures |Bar(completed)| == 102
    ensures Bar(completed)[0] == LeftEdge && Bar(completed)[101] == RightEdge
    ensures forall i :: 1 <= i <= completed ==> Bar(completed)[i] == Done
    ensures forall i :: completed < i <= 100 ==> Bar(completed)[i] == Todo
    ensures multiset(Bar(completed))[Done] == completed
  {
    var b := Bar(completed);
    var d := Repeat(Done, completed);
    var t := Repeat(Todo, 100 - completed);
    assert b == [LeftEdge] + d + t + [RightEdge];
    assert multiset(d)[Done] == completed by {
      assert d == seq(completed, _ => Done);
      RepeatCount(Done, completed);
    }
    assert multiset(t)[Done] == 0 by {
      assert Done !in t;
    }
  }

  lemma {:induction false} RepeatCount(c: char, n: nat)
    ensures multiset(Repeat(c, n))[c] == n
  {
    if n > 0 {
      RepeatCount(c, n - 1);
      assert Repeat(c, n) == Repeat(c, n - 1) + [c];
    }
  }

  /** Outside 0..100 the bar is no longer 100 cells: above 100 it holds
      `completed` done cells and none to do, below 0 it holds no done cell
      and `100 - completed` cells to do. */
  lemma BarOutOfRange(completed: int)
    ensures completed > 100 ==> |Bar(completed)| == completed + 2 && Todo !in Bar(completed)
    ensures completed < 0 ==> |Bar(completed)| == 102 - completed && Done !in Bar(completed)
  {
    assert Bar(completed) == [LeftEdge] + Repeat(Done, completed) + Repeat(Todo, 100 - completed) + [RightEdge];
  }

  /** The table header of line 174. */
  const Columns: seq<string> := ["PORT", "PROTOCOL", "SERVICE"]

  /** Line 175: each column is as wide as its header plus four. */
  function HeaderWidths(columns: seq<string>): (r: seq<int>)
    ensures |r| == |columns|
    ensures forall i :: 0 <= i < |columns| ==> r[i] >= |columns[i]| + 1
  {
    seq(|columns|, i requires 0 <= i < |columns| => |columns[i]| + 4)
  }

  lemma TableWidths()
    ensures HeaderWidths(Columns) == [8, 12, 11]
  {
  }

  /** The header row, and every row whose cells fit their columns, is 31
      characters wide, with the cells starting at columns 0, 8 and 20; a
      cell wider than its column is kept whole and pushes the rest right. */
  lemma TableRowLayout(cells: seq<string>)
    requires |cells| == 3 && Fits(cells, HeaderWidths(Columns))
    ensures LJustAll(cells, PerColumn(HeaderWidths(Columns)), ' ', "").Ok?
    ensures
      var row := LJustAll(cells, PerColumn(HeaderWidths(Columns)), ' ', "").value;
      && |row| == 31
      && row[0..|cells[0]|] == cells[0]
      && row[8..8 + |cells[1]|] == cells[1]
      && row[20..20 + |cells[2]|] == cells[2]
  {
    var ws := HeaderWidths(Columns);
    TableWidths();
    assert ws[..0] == [] && ws[..1] == [8] && ws[..2] == [8, 12] && ws[..3] == ws;
    assert Sum([8]) == 8 && Sum([8, 12]) == 20 && Sum(ws) == 31 by {
      assert [8, 12][..1] == [8];
      assert [8][..0] == [];
      assert ws[..2] == [8, 12];
    }
    LJustAllAligned(cells, ws, ' ', 0);
    LJustAllAligned(cells, ws, ' ', 1);
    LJustAllAligned(cells, ws, ' ', 2);
  }

  /** The header itself fits its columns. */
  lemma HeaderRow()
    ensures Fits(Columns, HeaderWidths(Columns))
    ensures LJustAll(Columns, PerColumn(HeaderWidths(Columns)), ' ', "").Ok?
    ensures |LJustAll(Columns, PerColumn(HeaderWidths(Columns)), ' ', "").value| == 31
  {
    TableWidths();
    TableRowLayout(Columns);
  }
}
