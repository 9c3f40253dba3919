/** utils.py: `ljust_all`, left-justify every string of a row and join them. */
module Utils {
  import opened Results

  function Max(a: int, b: int): int { if a < b then b else a }

  /** `n` copies of `c`; a count of zero or less gives the empty string. */
  function Repeat(c: char, n: int): (r: string)
    ensures |r| == Max(0, n)
    ensures forall i :: 0 <= i < |r| ==> r[i] == c
  {
    seq(Max(0, n), _ => c)
  }

  /** Python's `s.ljust(width, fill)`: pad on the right with `fill` up to
      `width` characters; a string already that long is returned unchanged. */
  function LJust(s: string, width: int, fill: char): (r: string)
    ensures |r| == Max(|s|, width)
    ensures r[..|s|] == s
    ensures forall i :: |s| <= i < |r| ==> r[i] == fill
    ensures |s| >= width ==> r == s
  {
    s + Repeat(fill, width - |s|)
  }

  /** Python's `delimiter.join(pieces)`. */
  function Join(delimiter: string, pieces: seq<string>): (r: string)
    ensures |pieces| == 0 ==> r == ""
    ensures |pieces| > 0 ==> |pieces[0]| <= |r| && r[..|pieces[0]|] == pieces[0]
  {
    if |pieces| == 0 then ""
    else if |pieces| == 1 then pieces[0]
    else Join(delimiter, pieces[..|pieces| - 1]) + delimiter + pieces[|pieces| - 1]
  }

  /** Total length of the pieces. */
  function SumLen(pieces: seq<string>): nat
  {
    if |pieces| == 0 then 0 else SumLen(pieces[..|pieces| - 1]) + |pieces[|pieces| - 1]|
  }

  /** Where piece `i` starts inside `Join(delimiter, pieces)`. */
  function Offset(delimiter: string, pieces: seq<string>, i: nat): nat
    requires i <= |pieces|
  {
    SumLen(pieces[..i]) + i * |delimiter|
  }

  lemma {:induction false} SumLenPrefix(pieces: seq<string>, i: nat)
    requires i < |pieces|
    ensures SumLen(pieces[..i + 1]) == SumLen(pieces[..i]) + |pieces[i]|
  {
    assert pieces[..i + 1][..i] == pieces[..i];
  }

  lemma MulSucc(k: nat, m: nat)
    ensures (k + 1) * m == k * m + m
  {
  }

  /** The joined string is as long as its pieces plus one delimiter between
      each neighbouring pair. */
  lemma {:induction false} JoinLength(delimiter: string, pieces: seq<string>)
    requires |pieces| > 0
    ensures |Join(delimiter, pieces)| == SumLen(pieces) + (|pieces| - 1) * |delimiter|
  {
    var n := |pieces|;
    if n > 1 {
      var front := pieces[..n - 1];
      JoinLength(delimiter, front);
      assert |Join(delimiter, pieces)| == |Join(delimiter, front)| + |delimiter| + |pieces[n - 1]|;
      assert SumLen(pieces) == SumLen(front) + |pieces[n - 1]|;
      MulSucc(n - 2, |delimiter|);
    }
  }

  /** Consecutive offsets are one piece and one delimiter apart. */
  lemma OffsetNext(delimiter: string, pieces: seq<string>, i: nat)
    requires i < |pieces|
    ensures Offset(delimiter, pieces, i + 1) == Offset(delimiter, pieces, i) + |pieces[i]| + |delimiter|
  {
    SumLenPrefix(pieces, i);
    MulSucc(i, |delimiter|);
  }

  /** Every piece appears, in order, at its offset in the joined string, and
      the delimiter follows every piece but the last. */
  lemma {:induction false} JoinPieceAt(delimiter: string, pieces: seq<string>, i: nat)
    requires i < |pieces|
    ensures Offset(delimiter, pieces, i) + |pieces[i]| <= |Join(delimiter, pieces)|
    ensures Join(delimiter, pieces)[Offset(delimiter, pieces, i)..Offset(delimiter, pieces, i) + |pieces[i]|] == pieces[i]
    ensures i + 1 < |pieces| ==>
      var after := Offset(delimiter, pieces, i) + |pieces[i]|;
      after + |delimiter| <= |Join(delimiter, pieces)| &&
      Join(delimiter, pieces)[after..after + |delimiter|] == delimiter
  {
    var n := |pieces|;
    var row := Join(delimiter, pieces);
    var off := Offset(delimiter, pieces, i);
    if n == 1 {
      assert pieces[..0] == [];
      assert off == 0;
    } else {
      var front := pieces[..n - 1];
      var left := Join(delimiter, front);
      assert row == left + delimiter + pieces[n - 1];
      JoinLength(delimiter, front);
      assert front == pieces[..n - 1];
      MulSucc(n - 2, |delimiter|);
      assert Offset(delimiter, pieces, n - 1) == |left| + |delimiter|;
      if i < n - 1 {
        JoinPieceAt(delimiter, front, i);
        assert front[..i] == pieces[..i];
        assert Offset(delimiter, front, i) == off;
        assert row[off..off + |pieces[i]|] == left[off..off + |pieces[i]|];
        var after := off + |pieces[i]|;
        if i + 1 < n - 1 {
          assert row[after..after + |delimiter|] == left[after..after + |delimiter|];
        } else {
          OffsetNext(delimiter, pieces, i);
          assert after == |left|;
          assert row[after..after + |delimiter|] == delimiter;
        }
      } else {
        assert row[off..off + |pieces[i]|] == pieces[n - 1];
      }
    }
  }

  /** The width argument of `ljust_all`: one width for every string, or one
      width per string. */
  datatype Width = Uniform(w: int) | PerColumn(ws: seq<int>)

  /** The width string `i` is justified to. */
  function ColumnWidth(width: Width, i: nat): int
    requires width.PerColumn? ==> i < |width.ws|
  {
    match width
    case Uniform(w) => w
    case PerColumn(ws) => ws[i]
  }

  /** The justified strings, in the order of `strs`. */
  function Padded(strs: seq<string>, width: Width, fill: char): (r: seq<string>)
    requires width.PerColumn? ==> |width.ws| == |strs|
    ensures |r| == |strs|
    ensures forall i :: 0 <= i < |strs| ==> r[i] == LJust(strs[i], ColumnWidth(width, i), fill)
  {
    seq(|strs|, i requires 0 <= i < |strs| => LJust(strs[i], ColumnWidth(width, i), fill))
  }

  /** utils.py `ljust_all`. A per-column width list of the wrong length is
      the failed assertion of the source. */
  function LJustAll(strs: seq<string>, width: Width, fill: char, delimiter: string): (r: Result<string, ScanError>)
    ensures r.Err? <==> width.PerColumn? && |width.ws| != |strs|
    ensures r.Err? ==> r.error.AssertionError?
    ensures |strs| == 0 && r.Ok? ==> r.value == ""
  {
    if width.PerColumn? && |width.ws| != |strs| then
      Err(AssertionError("ljust_all: Length of `strs` and `width` must be the same"))
    else
      Ok(Join(delimiter, Padded(strs, width, fill)))
  }

  /** Sum over the row of the width each cell ends up with. */
  function JustifiedWidth(strs: seq<string>, width: Width): nat
    requires width.PerColumn? ==> |width.ws| == |strs|
  {
    if |strs| == 0 then 0
    else
      var n := |strs| - 1;
      var front := match width
        case Uniform(w) => width
        case PerColumn(ws) => PerColumn(ws[..n]);
      JustifiedWidth(strs[..n], front) + Max(|strs[n]|, ColumnWidth(width, n))
  }

  lemma {:induction false} SumLenPadded(strs: seq<string>, width: Width, fill: char)
    requires width.PerColumn? ==> |width.ws| == |strs|
    ensures SumLen(Padded(strs, width, fill)) == JustifiedWidth(strs, width)
  {
    var n := |strs|;
    if n > 0 {
      var front := match width
        case Uniform(w) => width
        case PerColumn(ws) => PerColumn(ws[..n - 1]);
      SumLenPadded(strs[..n - 1], front, fill);
      var p := Padded(strs, width, fill);
      assert p[..n - 1] == Padded(strs[..n - 1], front, fill);
    }
  }

  /** With the default empty delimiter the row is exactly as long as the sum
      of `max(len(strs[i]), width_i)`; an empty row gives "". */
  lemma LJustAllLength(strs: seq<string>, width: Width, fill: char)
    requires width.PerColumn? ==> |width.ws| == |strs|
    ensures LJustAll(strs, width, fill, "").Ok?
    ensures |LJustAll(strs, width, fill, "").value| == JustifiedWidth(strs, width)
  {
    var p := Padded(strs, width, fill);
    SumLenPadded(strs, width, fill);
    if |p| > 0 {
      JoinLength("", p);
    }
  }

  /** Cell `i` of the row: the justified string sits at its offset, keeps
      its original string as a prefix, and is padded with `fill` up to its
      width; cells keep the order of `strs`. */
  lemma LJustAllCell(strs: seq<string>, width: Width, fill: char, delimiter: string, i: nat)
    requires width.PerColumn? ==> |width.ws| == |strs|
    requires i < |strs|
    ensures LJustAll(strs, width, fill, delimiter).Ok?
    ensures
      var row := LJustAll(strs, width, fill, delimiter).value;
      var start := Offset(delimiter, Padded(strs, width, fill), i);
      var w := Max(|strs[i]|, ColumnWidth(width, i));
      && start + w <= |row|
      && row[start..start + |strs[i]|] == strs[i]
      && (forall j :: start + |strs[i]| <= j < start + w ==> row[j] == fill)
  {
    var p := Padded(strs, width, fill);
    JoinPieceAt(delimiter, p, i);
    var row := Join(delimiter, p);
    var start := Offset(delimiter, p, i);
    assert row[start..start + |p[i]|] == p[i];
    assert p[i] == LJust(strs[i], ColumnWidth(width, i), fill);
    forall j | start <= j < start + |p[i]|
      ensures row[j] == p[i][j - start]
    {
      assert row[start..start + |p[i]|][j - start] == row[j];
    }
  }

  function Sum(ws: seq<int>): int
  {
    if |ws| == 0 then 0 else Sum(ws[..|ws| - 1]) + ws[|ws| - 1]
  }

  /** Every string fits its column. */
  predicate Fits(strs: seq<string>, ws: seq<int>)
    requires |ws| == |strs|
  {
    forall j :: 0 <= j < |strs| ==> |strs[j]| <= ws[j]
  }

  lemma {:induction false} FittedOffsets(strs: seq<string>, ws: seq<int>, fill: char, i: nat)
    requires |ws| == |strs| && i <= |strs| && Fits(strs, ws)
    ensures SumLen(Padded(strs, PerColumn(ws), fill)[..i]) == Sum(ws[..i])
  {
    if i > 0 {
      var p := Padded(strs, PerColumn(ws), fill);
      FittedOffsets(strs, ws, fill, i - 1);
      SumLenPrefix(p, i - 1);
      assert ws[..i][..i - 1] == ws[..i - 1];
    }
  }

  /** When every string fits its column width, the row of `ljust_all` with
      the default empty delimiter is exactly as wide as the widths add up
      to, and string `i` starts at the sum of the widths before it: rows
      built with the same widths line up in columns. */
  lemma LJustAllAligned(strs: seq<string>, ws: seq<int>, fill: char, i: nat)
    requires |ws| == |strs| && Fits(strs, ws) && i < |strs|
    ensures LJustAll(strs, PerColumn(ws), fill, "").Ok?
    ensures |LJustAll(strs, PerColumn(ws), fill, "").value| == Sum(ws)
    ensures 0 <= Sum(ws[..i]) && Sum(ws[..i]) + |strs[i]| <= Sum(ws)
    ensures LJustAll(strs, PerColumn(ws), fill, "").value[Sum(ws[..i])..Sum(ws[..i]) + |strs[i]|] == strs[i]
  {
    var p := Padded(strs, PerColumn(ws), fill);
    JoinLength("", p);
    FittedOffsets(strs, ws, fill, |strs|);
    FittedOffsets(strs, ws, fill, i);
    assert p[..|strs|] == p && ws[..|strs|] == ws;
    LJustAllCell(strs, PerColumn(ws), fill, "", i);
  }
}
