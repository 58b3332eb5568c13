/**
 Column widths of a table in the transcript image: what each column would like, and how the room
 there is gets shared out. Widths are whole pixels; a share is the floor of an exact fraction.
 */
module TableColumns {
  import opened Common

  const PADDING_X: int := 10
  const MAX_CELL: int := 260
  const MIN_CELL: int := 70

  function Ceil(x: real): int {
    -((-x).Floor)
  }

  function Sum(s: seq<int>): int {
    if s == [] then 0 else s[0] + Sum(s[1..])
  }

  function CellWidth(value: string, width: string -> real): int {
    Min(MAX_CELL, Ceil(width(value)) + PADDING_X * 2)
  }

  function MaxLength(rows: seq<seq<string>>, least: int): int {
    if rows == [] then least else MaxLength(rows[1..], Max(least, |rows[0]|))
  }

  /** `Math.max(header.length, ...rows.map((r) => r.length), 1)` */
  function Columns(header: seq<string>, rows: seq<seq<string>>): int {
    MaxLength(rows, Max(|header|, 1))
  }

  /** A row padded with empty cells. */
  function Padded(row: seq<string>, columns: nat): seq<string> {
    seq(columns, i => if 0 <= i < |row| then row[i] else "")
  }

  function PaddedRows(rows: seq<seq<string>>, columns: nat): seq<seq<string>> {
    seq(|rows|, i requires 0 <= i < |rows| => Padded(rows[i], columns))
  }

  /** `w` is the widest that the cells of column `col` ask for, and at least the minimum. */
  ghost predicate IsDesired(w: int, table: seq<seq<string>>, col: nat, width: string -> real)
    requires forall r :: 0 <= r < |table| ==> col < |table[r]|
  {
    && MIN_CELL <= w <= MAX_CELL
    && (forall r :: 0 <= r < |table| ==> CellWidth(table[r][col], width) <= w)
    && (w == MIN_CELL || exists r :: 0 <= r < |table| && CellWidth(table[r][col], width) == w)
  }

  lemma {:induction false} MaxLengthBounds(rows: seq<seq<string>>, least: int)
    ensures MaxLength(rows, least) >= least
    ensures forall r :: 0 <= r < |rows| ==> |rows[r]| <= MaxLength(rows, least)
  {
    if rows != [] {
      MaxLengthBounds(rows[1..], Max(least, |rows[0]|));
      assert forall r :: 1 <= r < |rows| ==> rows[r] == rows[1..][r - 1];
    }
  }

  lemma {:induction false} MaxLengthReached(rows: seq<seq<string>>, least: int)
    ensures MaxLength(rows, least) == least || exists r :: 0 <= r < |rows| && |rows[r]| == MaxLength(rows, least)
  {
    if rows != [] {
      var rest := Max(least, |rows[0]|);
      MaxLengthReached(rows[1..], rest);
      if MaxLength(rows, least) == rest {
        assert rest == least || |rows[0]| == rest;
      } else {
        var r :| 0 <= r < |rows[1..]| && |rows[1..][r]| == MaxLength(rows, least);
        assert |rows[r + 1]| == MaxLength(rows, least);
      }
    }
  }

  /** A table has as many columns as its longest row, header included, and at least one. */
  lemma ColumnsMeaning(header: seq<string>, rows: seq<seq<string>>)
    ensures var columns := Columns(header, rows);
            && columns >= 1 && columns >= |header|
            && (forall r :: 0 <= r < |rows| ==> |rows[r]| <= columns)
            && (columns == 1 || columns == |header| || exists r :: 0 <= r < |rows| && |rows[r]| == columns)
  {
    MaxLengthBounds(rows, Max(|header|, 1));
    MaxLengthReached(rows, Max(|header|, 1));
  }

  /** Padding keeps every cell in its column and adds empty cells behind the last. */
  lemma PaddingKeepsCells(rows: seq<seq<string>>, columns: nat, r: nat)
    requires r < |rows| && |rows[r]| <= columns
    ensures var padded := PaddedRows(rows, columns);
            && |padded| == |rows| && |padded[r]| == columns
            && padded[r][..|rows[r]|] == rows[r]
            && forall col :: |rows[r]| <= col < columns ==> padded[r][col] == ""
  {
  }

  /** A cell asks for its text, rounded up, and ten pixels on either side, but not for more than 260. */
  lemma CellWidthMeaning(value: string, width: string -> real)
    ensures var w := CellWidth(value, width);
            && w <= 260
            && (w < 260 ==> (w - 21) as real < width(value) <= (w - 20) as real)
            && (w == 260 ==> width(value) > 239.0)
  {
    var x := -width(value);
    assert x.Floor as real <= x < x.Floor as real + 1.0;
  }

  /** Every cell of a rectangular table, header first, raises its column's width. */
  method DesiredWidths(table: seq<seq<string>>, columns: nat, width: string -> real) returns (colMax: array<int>)
    requires forall r :: 0 <= r < |table| ==> |table[r]| == columns
    ensures fresh(colMax) && colMax.Length == columns
    ensures forall col :: 0 <= col < columns ==> IsDesired(colMax[col], table, col, width)
  {
    hide CellWidth;
    colMax := new int[columns](_ => MIN_CELL);
    for r := 0 to |table|
      invariant forall col :: 0 <= col < columns ==> IsDesired(colMax[col], table[..r], col, width)
    {
      for col := 0 to columns
        invariant forall c :: 0 <= c < col ==> IsDesired(colMax[c], table[..r + 1], c, width)
        invariant forall c :: col <= c < columns ==> IsDesired(colMax[c], table[..r], c, width)
      {
        ghost var before := colMax[col];
        colMax[col] := Max(colMax[col], CellWidth(table[r][col], width));
        RaiseDesired(before, table, r, col, width);
      }
    }
    assert table[..|table|] == table;
  }

  lemma RaiseDesired(w: int, table: seq<seq<string>>, r: nat, col: nat, width: string -> real)
    requires r < |table|
    requires forall i :: 0 <= i < |table| ==> col < |table[i]|
    requires IsDesired(w, table[..r], col, width)
    ensures IsDesired(Max(w, CellWidth(table[r][col], width)), table[..r + 1], col, width)
  {
    var raised := Max(w, CellWidth(table[r][col], width));
    if raised != w {
      assert CellWidth(table[..r + 1][r][col], width) == raised;
    } else if w != MIN_CELL {
      var i :| 0 <= i < r && CellWidth(table[..r][i][col], width) == w;
      assert CellWidth(table[..r + 1][i][col], width) == w;
    }
  }

  // ----- Sharing out the room

  /** The whole pixels of `available` that fall to a column that wants `w` of `total`. */
  function Share(w: int, available: int, total: int): int
    requires total > 0
  {
    w * available / total
  }

  function Scaled(desired: seq<int>, available: int, total: int): seq<int>
    requires total > 0
  {
    seq(|desired|, i requires 0 <= i < |desired| => Max(MIN_CELL, Share(desired[i], available, total)))
  }

  function WidenLast(widths: seq<int>, extra: int): seq<int>
    requires widths != []
  {
    widths[|widths| - 1 := widths[|widths| - 1] + extra]
  }

  function Allocated(desired: seq<int>, available: int): seq<int>
    requires desired != []
    requires Sum(desired) > 0
  {
    var total := Sum(desired);
    if total > available then
      var scaled := Scaled(desired, available, total);
      var diff := available - Sum(scaled);
      if diff > 0 then WidenLast(scaled, diff) else scaled
    else WidenLast(desired, available - total)
  }

  method AllocateColumns(colMax: array<int>, available: int) returns (colWidths: array<int>)
    requires colMax.Length > 0
    requires Sum(colMax[..]) > 0
    ensures fresh(colWidths)
    ensures colWidths[..] == Allocated(colMax[..], available)
  {
    hide Sum, Share;
    var columns := colMax.Length;
    var totalDesired := SumOf(colMax);
    colWidths := new int[columns];
    if totalDesired > available {
      for i := 0 to columns
        invariant colWidths[..i] == Scaled(colMax[..], available, totalDesired)[..i]
      {
        colWidths[i] := Max(MIN_CELL, Share(colMax[i], available, totalDesired));
        assert colWidths[..i + 1] == colWidths[..i] + [colWidths[i]];
      }
      assert colWidths[..] == Scaled(colMax[..], available, totalDesired);
      var after := SumOf(colWidths);
      var diff := available - after;
      if diff > 0 {
        colWidths[columns - 1] := colWidths[columns - 1] + diff;
      }
    } else {
      for i := 0 to columns
        invariant colWidths[..i] == colMax[..i]
      {
        colWidths[i] := colMax[i];
        assert colWidths[..i + 1] == colWidths[..i] + [colWidths[i]];
      }
      assert colWidths[..] == colMax[..];
      if totalDesired < available {
        colWidths[columns - 1] := colWidths[columns - 1] + (available - totalDesired);
      }
    }
  }

  method SumOf(a: array<int>) returns (sum: int)
    ensures sum == Sum(a[..])
  {
    sum := 0;
    for i := 0 to a.Length
      invariant sum == Sum(a[..i])
    {
      sum := sum + a[i];
      assert a[..i + 1] == a[..i] + [a[i]];
      SumAppend(a[..i], a[i]);
    }
    assert a[..a.Length] == a[..];
  }

  lemma {:induction false} SumAppend(s: seq<int>, x: int)
    ensures Sum(s + [x]) == Sum(s) + x
  {
    if s == [] {
      assert s + [x] == [x];
    } else {
      assert (s + [x])[1..] == s[1..] + [x];
      SumAppend(s[1..], x);
    }
  }

  lemma SumWidenLast(widths: seq<int>, extra: int)
    requires widths != []
    ensures Sum(WidenLast(widths, extra)) == Sum(widths) + extra
  {
    var front, last := widths[..|widths| - 1], widths[|widths| - 1];
    assert widths == front + [last] && WidenLast(widths, extra) == front + [last + extra];
    SumAppend(front, last);
    SumAppend(front, last + extra);
  }

  lemma {:induction false} SumAtLeast(s: seq<int>, least: int)
    requires forall i :: 0 <= i < |s| ==> s[i] >= least
    ensures Sum(s) >= least * |s|
  {
    if s != [] {
      SumAtLeast(s[1..], least);
    }
  }

  /** The pixels by which the minimum width exceeds the share of each column it is forced on. */
  function Clamped(desired: seq<int>, available: int, total: int): int
    requires total > 0
  {
    if desired == [] then 0
    else Max(0, MIN_CELL - Share(desired[0], available, total)) + Clamped(desired[1..], available, total)
  }

  /** The shares of all columns, before any minimum is forced. */
  function Shares(desired: seq<int>, available: int, total: int): int
    requires total > 0
  {
    if desired == [] then 0 else Share(desired[0], available, total) + Shares(desired[1..], available, total)
  }

  lemma {:induction false} ScaledIsShares(desired: seq<int>, available: int, total: int)
    requires total > 0
    ensures Sum(Scaled(desired, available, total)) ==
            Shares(desired, available, total) + Clamped(desired, available, total)
  {
    if desired != [] {
      ScaledIsShares(desired[1..], available, total);
      assert Scaled(desired, available, total)[1..] == Scaled(desired[1..], available, total);
    }
  }

  lemma ShareBounds(w: int, available: int, total: int)
    requires total > 0
    ensures Share(w, available, total) * total <= w * available < Share(w, available, total) * total + total
  {
  }

  lemma Distribute(a: int, b: int, c: int)
    ensures (a + b) * c == a * c + b * c
  {
  }

  /** Together the shares miss the room they divide by less than a pixel for each column. */
  lemma {:induction false} SharesBounds(desired: seq<int>, available: int, total: int)
    requires total > 0
    ensures Shares(desired, available, total) * total <= Sum(desired) * available
    ensures desired != [] ==>
              Sum(desired) * available < Shares(desired, available, total) * total + |desired| * total
  {
    if desired != [] {
      var share, rest := Share(desired[0], available, total), Shares(desired[1..], available, total);
      SharesBounds(desired[1..], available, total);
      ShareBounds(desired[0], available, total);
      Distribute(share, rest, total);
      Distribute(1, |desired| - 1, total);
      Distribute(desired[0], Sum(desired[1..]), available);
    }
  }

  lemma MultiplyStrict(a: int, b: int, total: int)
    requires total > 0 && a > b
    ensures a * total > b * total
  {
    assert (a - b) * total > 0;
  }

  lemma CancelFactor(a: int, b: int, total: int)
    requires total > 0
    ensures a * total <= b * total ==> a <= b
    ensures a * total < b * total ==> a < b
  {
    if a > b {
      MultiplyStrict(a, b, total);
    }
  }

  /** The shares of a desire that exceeds the room, against the room. */
  lemma SharesFit(desired: seq<int>, available: int)
    requires desired != [] && Sum(desired) > 0
    ensures Shares(desired, available, Sum(desired)) <= available < Shares(desired, available, Sum(desired)) + |desired|
  {
    var total := Sum(desired);
    var shares := Shares(desired, available, total);
    SharesBounds(desired, available, total);
    Distribute(shares, |desired|, total);
    assert total * available == available * total;
    CancelFactor(shares, available, total);
    CancelFactor(available, shares + |desired|, total);
  }

  /**
   No column is narrower than the minimum, and the columns fill the room. They fill it exactly unless
   the minimum is forced on some columns, and then the overflow is at most what was forced.
   */
  lemma AllocationBounds(desired: seq<int>, available: int)
    requires desired != []
    requires forall i :: 0 <= i < |desired| ==> desired[i] >= MIN_CELL
    ensures Sum(desired) > 0
    ensures |Allocated(desired, available)| == |desired|
    ensures forall i :: 0 <= i < |desired| ==> Allocated(desired, available)[i] >= MIN_CELL
    ensures available <= Sum(Allocated(desired, available))
    ensures Sum(desired) <= available ==> Sum(Allocated(desired, available)) == available
    ensures Sum(desired) > available ==>
              Sum(Allocated(desired, available)) - available <= Clamped(desired, available, Sum(desired))
  {
    var total := Sum(desired);
    SumAtLeast(desired, MIN_CELL);
    var scaled := Scaled(desired, available, total);
    SumWidenLast(scaled, available - Sum(scaled));
    SumWidenLast(desired, available - total);
    ScaledIsShares(desired, available, total);
    SharesFit(desired, available);
    ClampedNatural(desired, available, total);
  }

  lemma {:induction false} ClampedNatural(desired: seq<int>, available: int, total: int)
    requires total > 0
    ensures Clamped(desired, available, total) >= 0
    ensures Clamped(desired, available, total) == 0 <==>
            forall i :: 0 <= i < |desired| ==> Share(desired[i], available, total) >= MIN_CELL
  {
    if desired != [] {
      ClampedNatural(desired[1..], available, total);
    }
  }

  /**
   The columns overflow the room exactly when the minimum forces more pixels than rounding down has
   spared; without any forced column the last one gets back what rounding took, fewer pixels than
   there are columns.
   */
  lemma AllocationExact(desired: seq<int>, available: int)
    requires desired != []
    requires forall i :: 0 <= i < |desired| ==> desired[i] >= MIN_CELL
    requires Sum(desired) > available
    ensures Sum(desired) > 0
    ensures Sum(Allocated(desired, available)) ==
            Max(available, Shares(desired, available, Sum(desired)) + Clamped(desired, available, Sum(desired)))
    ensures Sum(Allocated(desired, available)) > available <==>
            Clamped(desired, available, Sum(desired)) > available - Shares(desired, available, Sum(desired))
    ensures (forall i :: 0 <= i < |desired| ==> Share(desired[i], available, Sum(desired)) >= MIN_CELL) ==>
              && Sum(Allocated(desired, available)) == available
              && (forall i :: 0 <= i < |desired| - 1 ==>
                                Allocated(desired, available)[i] == Share(desired[i], available, Sum(desired)))
              && 0 <= Allocated(desired, available)[|desired| - 1]
                      - Share(desired[|desired| - 1], available, Sum(desired)) < |desired|
  {
    var total := Sum(desired);
    AllocationBounds(desired, available);
    ClampedNatural(desired, available, total);
    ScaledIsShares(desired, available, total);
    SharesFit(desired, available);
    var scaled := Scaled(desired, available, total);
    SumWidenLast(scaled, available - Sum(scaled));
  }

  /**
   What each column gets. If all desires fit, the last column gets what is left over; else every
   column gets its share, rounded down, or the minimum, and the last one what rounding has spared.
   */
  lemma AllocationByColumn(desired: seq<int>, available: int, i: nat)
    requires i < |desired|
    requires forall k :: 0 <= k < |desired| ==> desired[k] >= 70
    ensures Sum(desired) > 0
    ensures var total, given := Sum(desired), Allocated(desired, available);
            var share := Share(desired[i], available, total);
            && share * total <= desired[i] * available < (share + 1) * total
            && |given| == |desired|
            && (total <= available ==> given[i] == desired[i] + if i == |desired| - 1 then available - total else 0)
            && (total > available ==> given[i] == Max(70, share) || (i == |desired| - 1 && given[i] > Max(70, share)))
  {
    hide Sum, Share;
    SumAtLeast(desired, MIN_CELL);
    var total := Sum(desired);
    assert total >= MIN_CELL * |desired| > 0;
    ShareBounds(desired[i], available, total);
    Distribute(Share(desired[i], available, total), 1, total);
  }

  /** Columns that cannot all have the minimum always overflow the room. */
  lemma ManyColumnsOverflow(desired: seq<int>, available: int)
    requires desired != [] && |desired| * MIN_CELL > available
    requires forall i :: 0 <= i < |desired| ==> desired[i] >= MIN_CELL
    ensures Sum(desired) > available && Sum(desired) > 0
    ensures Sum(Allocated(desired, available)) > available
  {
    SumAtLeast(desired, MIN_CELL);
    AllocationBounds(desired, available);
    SumAtLeast(Allocated(desired, available), MIN_CELL);
  }

  /** A table can overflow even where the minimum fits: two wide and two narrow columns in 644 pixels take 646. */
  lemma NarrowColumnsOverflow()
    ensures var desired := [MAX_CELL, MAX_CELL, MIN_CELL, MIN_CELL];
            && |desired| * MIN_CELL <= 644 && Sum(desired) == 660
            && Sum(Allocated(desired, 644)) == 646
  {
    var desired := [MAX_CELL, MAX_CELL, MIN_CELL, MIN_CELL];
    SumOfFour(MAX_CELL, MAX_CELL, MIN_CELL, MIN_CELL);
    assert Share(MAX_CELL, 644, 660) == 253 && Share(MIN_CELL, 644, 660) == 68;
    assert Scaled(desired, 644, 660) == [253, 253, 70, 70];
    SumOfFour(253, 253, 70, 70);
  }

  lemma SumOfFour(a: int, b: int, c: int, d: int)
    ensures Sum([a, b, c, d]) == a + b + c + d
  {
    assert [a, b, c, d][1..] == [b, c, d] && [b, c, d][1..] == [c, d] && [c, d][1..] == [d] && [d][1..] == [];
    assert Sum([d]) == d;
    assert Sum([c, d]) == c + d;
    assert Sum([b, c, d]) == b + (c + d);
  }
}
