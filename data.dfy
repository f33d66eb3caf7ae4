/**
 * Pixel surfaces and the row list they are flattened into (tableimage/data.py).
 *
 * A row list is a sequence of runs `(count, colour)` with a RowDivider after
 * the runs of every image row, the last row included.
 */
module Data {
  import opened Results

  /** An (R, G, B) triple. Channels are unbounded integers; clamping happens on output. */
  datatype Color = Color(r: int, g: int, b: int)

  /** One element of a row list: a run of equal pixels, or the end-of-row marker. */
  datatype Item = Run(count: nat, colour: Color) | RowDivider

  /** `RowDivider.__eq__`: a divider is equal to every divider and to nothing else. */
  function IsRowDivider(x: Item): (b: bool)
    ensures b <==> x == RowDivider
    ensures b <==> !exists k: nat, c: Color :: x == Run(k, c)
  {
    x.RowDivider?
  }

  /**
   * The PixelAccess capability: `getsize()` is (width, height) and
   * `getpixel(x, y)` is `pixels[y][x]`, with (0, 0) the top-left pixel.
   */
  datatype Surface = Surface(width: nat, height: nat, pixels: seq<seq<Color>>) {
    predicate Valid() {
      |pixels| == height && forall y :: 0 <= y < height ==> |pixels[y]| == width
    }

    function GetPixel(x: nat, y: nat): Color
      requires Valid() && x < width && y < height
    {
      pixels[y][x]
    }
  }

  /** `n` copies of one colour. */
  function Repeat(c: Color, n: nat): (s: seq<Color>)
    ensures |s| == n && forall i :: 0 <= i < n ==> s[i] == c
  {
    seq(n, _ => c)
  }

  /** Sum of the run counts in a row list (dividers count for nothing). */
  function TotalCount(items: seq<Item>): nat
  {
    if items == [] then 0
    else TotalCount(items[..|items| - 1]) + (match items[|items| - 1] case Run(k, _) => k case RowDivider => 0)
  }

  /** The pixels a row list stands for: every run expanded to `count` copies of its colour. */
  function Expand(items: seq<Item>): (s: seq<Color>)
    ensures |s| == TotalCount(items)
  {
    if items == [] then []
    else Expand(items[..|items| - 1]) + (match items[|items| - 1] case Run(k, c) => Repeat(c, k) case RowDivider => [])
  }

  predicate NoDividers(runs: seq<Item>) {
    forall i :: 0 <= i < |runs| ==> runs[i].Run?
  }

  /**
   * `runs` is a run-length encoding of `row`: only runs, each of at least one
   * pixel, neighbours of different colour (so every run is maximal), and
   * expanding them gives back the row.
   */
  ghost predicate IsRle(runs: seq<Item>, row: seq<Color>) {
    && (forall i :: 0 <= i < |runs| ==> runs[i].Run? && runs[i].count >= 1)
    && (forall i, j :: 0 <= i < j < |runs| && j == i + 1 ==> runs[i].colour != runs[j].colour)
    && Expand(runs) == row
  }

  /** One step of the scan along a row: the next pixel extends the last run or starts a new one. */
  function Extend(runs: seq<Item>, c: Color): seq<Item>
  {
    if |runs| > 0 && runs[|runs| - 1].Run? && runs[|runs| - 1].colour == c
    then runs[..|runs| - 1] + [Run(runs[|runs| - 1].count + 1, c)]
    else runs + [Run(1, c)]
  }

  lemma ExpandAppend(a: seq<Item>, b: seq<Item>)
    ensures Expand(a + b) == Expand(a) + Expand(b)
    decreases |b|
  {
    if b == [] {
      assert a + b == a;
    } else {
      assert (a + b)[..|a + b| - 1] == a + b[..|b| - 1];
      ExpandAppend(a, b[..|b| - 1]);
    }
  }

  lemma ExpandExtend(runs: seq<Item>, c: Color)
    ensures Expand(Extend(runs, c)) == Expand(runs) + [c]
  {
    if |runs| > 0 && runs[|runs| - 1].Run? && runs[|runs| - 1].colour == c {
      var init, k := runs[..|runs| - 1], runs[|runs| - 1].count;
      assert runs == init + [runs[|runs| - 1]];
      ExpandAppend(init, [runs[|runs| - 1]]);
      ExpandAppend(init, [Run(k + 1, c)]);
      assert [runs[|runs| - 1]][..0] == [];
      assert [Run(k + 1, c)][..0] == [];
      assert Repeat(c, k + 1) == Repeat(c, k) + [c];
    } else {
      ExpandAppend(runs, [Run(1, c)]);
      assert [Run(1, c)][..0] == [];
    }
  }

  /** Extending an encoding by one pixel keeps it an encoding of the longer row. */
  lemma ExtendKeepsRle(runs: seq<Item>, row: seq<Color>, c: Color)
    requires IsRle(runs, row)
    requires |row| > 0 ==> |runs| > 0 && runs[|runs| - 1].colour == row[|row| - 1]
    ensures IsRle(Extend(runs, c), row + [c])
    ensures |Extend(runs, c)| <= |runs| + 1
    ensures Extend(runs, c)[|Extend(runs, c)| - 1].colour == c
  {
    ExpandExtend(runs, c);
    var r := Extend(runs, c);
    if |runs| > 0 && runs[|runs| - 1].colour == c {
      assert forall i :: 0 <= i < |runs| - 1 ==> r[i] == runs[i];
    } else {
      assert forall i :: 0 <= i < |runs| ==> r[i] == runs[i];
      if |runs| > 0 {
        assert r[|runs| - 1].colour != r[|runs|].colour;
      }
    }
  }

  /** The run-length encoding of one pixel row, read left to right (data.py:58-70 for one `y`). */
  function Encode(row: seq<Color>): seq<Item>
  {
    if row == [] then [] else Extend(Encode(row[..|row| - 1]), row[|row| - 1])
  }

  /** Encode produces a run-length encoding of its row, one run at most per pixel. */
  lemma {:induction false} EncodeIsRle(row: seq<Color>)
    ensures IsRle(Encode(row), row)
    ensures |Encode(row)| <= |row|
    ensures |row| > 0 ==> |Encode(row)| > 0 && Encode(row)[|Encode(row)| - 1].colour == row[|row| - 1]
  {
    if row != [] {
      var init, last := row[..|row| - 1], row[|row| - 1];
      assert init + [last] == row;
      var e := Encode(init);
      EncodeIsRle(init);
      ExtendKeepsRle(e, init, last);
      assert Encode(row) == Extend(e, last);
    }
  }

  /** The facts about the last run of a non-empty encoding that uniqueness rests on. */
  lemma LastRun(a: seq<Item>, row: seq<Color>)
    requires IsRle(a, row) && a != []
    ensures a[|a| - 1].count <= |row|
    ensures Expand(a[..|a| - 1]) == row[..|row| - a[|a| - 1].count]
    ensures forall i :: |row| - a[|a| - 1].count <= i < |row| ==> row[i] == a[|a| - 1].colour
    ensures |a| == 1 ==> a[0].count == |row|
    ensures |a| > 1 ==> a[|a| - 1].count < |row| && row[|row| - a[|a| - 1].count - 1] != a[|a| - 1].colour
  {
    var a', x := a[..|a| - 1], a[|a| - 1];
    assert a == a' + [x];
    ExpandAppend(a', [x]);
    assert [x][..0] == [];
    assert Expand(a) == Expand(a') + Repeat(x.colour, x.count);
    if |a| > 1 {
      var a'', w := a'[..|a'| - 1], a'[|a'| - 1];
      assert a' == a'' + [w];
      ExpandAppend(a'', [w]);
      assert [w][..0] == [];
      assert w == a[|a| - 2];
      assert w.count >= 1 && w.colour != x.colour;
      assert Expand(a')[|Expand(a')| - 1] == w.colour;
    }
  }

  /** Dropping the last run leaves an encoding of the row without that run's pixels. */
  lemma DropLastRun(a: seq<Item>, row: seq<Color>)
    requires IsRle(a, row) && a != []
    ensures a[|a| - 1].count <= |row|
    ensures IsRle(a[..|a| - 1], row[..|row| - a[|a| - 1].count])
  {
    LastRun(a, row);
    var a' := a[..|a| - 1];
    assert forall i :: 0 <= i < |a'| ==> a'[i] == a[i];
  }

  /**
   * Of two encodings of one row, the first's last run is no longer than the
   * second's: the pixel just before the second's last run already has another
   * colour.
   */
  lemma LastRunNoLonger(a: seq<Item>, b: seq<Item>, row: seq<Color>)
    requires IsRle(a, row) && IsRle(b, row) && a != [] && b != []
    ensures a[|a| - 1].count <= b[|b| - 1].count
    ensures a[|a| - 1].colour == b[|b| - 1].colour
  {
    LastRun(a, row);
    LastRun(b, row);
    var x, y := a[|a| - 1], b[|b| - 1];
    assert x.count >= 1 && y.count >= 1;
    assert x.colour == row[|row| - 1] == y.colour;
    if |b| > 1 {
      assert row[|row| - y.count - 1] != x.colour;
    }
  }

  /** Two encodings of one row end in the same run. */
  lemma SameLastRun(a: seq<Item>, b: seq<Item>, row: seq<Color>)
    requires IsRle(a, row) && IsRle(b, row) && a != [] && b != []
    ensures a[|a| - 1] == b[|b| - 1]
  {
    LastRunNoLonger(a, b, row);
    LastRunNoLonger(b, a, row);
  }

  /** An encoding with maximal runs is unique: any two encodings of one row coincide. */
  lemma {:induction false} RleUnique(a: seq<Item>, b: seq<Item>, row: seq<Color>)
    requires IsRle(a, row) && IsRle(b, row)
    ensures a == b
    decreases |row|
  {
    if a == [] || b == [] {
      if a != [] { LastRun(a, row); }
      if b != [] { LastRun(b, row); }
    } else {
      SameLastRun(a, b, row);
      DropLastRun(a, row);
      DropLastRun(b, row);
      var k := a[|a| - 1].count;
      RleUnique(a[..|a| - 1], b[..|b| - 1], row[..|row| - k]);
      assert a == a[..|a| - 1] + [a[|a| - 1]];
      assert b == b[..|b| - 1] + [b[|b| - 1]];
    }
  }

  /** Number of RowDividers in a row list. */
  function DividerCount(items: seq<Item>): nat
  {
    if items == [] then 0
    else DividerCount(items[..|items| - 1]) + (if IsRowDivider(items[|items| - 1]) then 1 else 0)
  }

  /** The flat row list of a sequence of rows: each row's runs followed by one RowDivider. */
  function Join(rows: seq<seq<Item>>): seq<Item>
  {
    if rows == [] then []
    else Join(rows[..|rows| - 1]) + rows[|rows| - 1] + [RowDivider]
  }

  /** The rows finished so far and the runs of the row still open. */
  datatype Grouping = Grouping(rows: seq<seq<Item>>, current: seq<Item>)

  /**
   * Reading a row list back into rows, left to right: a RowDivider closes the
   * open row, any other item joins it (the intended grouping of
   * __init__.py:128-136).
   */
  function Split(items: seq<Item>): (g: Grouping)
    ensures NoDividers(g.current)
  {
    if items == [] then Grouping([], [])
    else
      var g := Split(items[..|items| - 1]);
      var x := items[|items| - 1];
      if IsRowDivider(x) then Grouping(g.rows + [g.current], []) else Grouping(g.rows, g.current + [x])
  }

  /** The rows of a row list; runs after the last divider belong to no row. */
  function Rows(items: seq<Item>): seq<seq<Item>>
  {
    Split(items).rows
  }

  /** There is one row per RowDivider, and no row holds a divider. */
  lemma {:induction false} RowsShape(items: seq<Item>)
    ensures |Rows(items)| == DividerCount(items)
    ensures forall i :: 0 <= i < |Rows(items)| ==> NoDividers(Rows(items)[i])
  {
    if items != [] {
      RowsShape(items[..|items| - 1]);
    }
  }

  /** Splitting after appending dividerless runs leaves them in the open row. */
  lemma {:induction false} SplitAppendRuns(a: seq<Item>, b: seq<Item>)
    requires NoDividers(b)
    ensures Split(a + b) == Grouping(Split(a).rows, Split(a).current + b)
    decreases |b|
  {
    if b == [] {
      assert a + b == a;
    } else {
      assert (a + b)[..|a + b| - 1] == a + b[..|b| - 1];
      SplitAppendRuns(a, b[..|b| - 1]);
      assert b[..|b| - 1] + [b[|b| - 1]] == b;
    }
  }

  /** Rows recovers the rows a row list was joined from. */
  lemma {:induction false} SplitJoin(rows: seq<seq<Item>>)
    requires forall i :: 0 <= i < |rows| ==> NoDividers(rows[i])
    ensures Split(Join(rows)) == Grouping(rows, [])
  {
    if rows != [] {
      var init, last := rows[..|rows| - 1], rows[|rows| - 1];
      assert forall i :: 0 <= i < |init| ==> init[i] == rows[i];
      SplitJoin(init);
      SplitAppendRuns(Join(init), last);
      var items := Join(rows);
      assert items == (Join(init) + last) + [RowDivider];
      assert items[..|items| - 1] == Join(init) + last;
      assert items[|items| - 1] == RowDivider;
      assert Split(Join(init) + last) == Grouping(init, last);
      assert Split(items) == Grouping(init + [last], []);
      assert init + [last] == rows;
    }
  }

  /** A row list that is empty or ends in a divider is exactly the join of its rows. */
  lemma {:induction false} JoinSplit(items: seq<Item>)
    ensures Split(items).current == [] <==> items == [] || IsRowDivider(items[|items| - 1])
    ensures Split(items).current == [] ==> Join(Rows(items)) == items
  {
    if items != [] {
      var init, x := items[..|items| - 1], items[|items| - 1];
      JoinSplit(init);
      if IsRowDivider(x) {
        var g := Split(init);
        JoinCurrent(init);
        assert Rows(items) == g.rows + [g.current];
        assert Rows(items)[..|Rows(items)| - 1] == g.rows;
        assert items == init + [x];
      }
    }
  }

  /** Every row list is the join of its rows followed by the open row. */
  lemma {:induction false} JoinCurrent(items: seq<Item>)
    ensures items == Join(Rows(items)) + Split(items).current
  {
    if items != [] {
      var init, x := items[..|items| - 1], items[|items| - 1];
      JoinCurrent(init);
      var g := Split(init);
      assert items == init + [x];
      if IsRowDivider(x) {
        assert Rows(items)[..|Rows(items)| - 1] == g.rows;
      }
    }
  }

  /** Encoding one more pixel of a row is one Extend step. */
  lemma EncodeSnoc(row: seq<Color>, x: nat)
    requires x < |row|
    ensures Encode(row[..x + 1]) == Extend(Encode(row[..x]), row[x])
  {
    assert row[..x + 1][..x] == row[..x] && row[..x + 1][x] == row[x];
  }

  /** Extend on a list whose last run is known. */
  lemma ExtendLast(pending: seq<Item>, n: nat, c: Color, p: Color)
    ensures Extend(pending + [Run(n, c)], p) ==
      if c == p then pending + [Run(n + 1, p)] else pending + [Run(n, c)] + [Run(1, p)]
  {
    var e := pending + [Run(n, c)];
    assert e[..|e| - 1] == pending;
  }

  /** One column of the scan: how the open run and the finished runs of a row move on. */
  lemma ScanStep(row: seq<Color>, x: nat, pending: seq<Item>, curr: Option<Color>, n: nat)
    requires x < |row|
    requires x == 0 ==> curr == None && pending == []
    requires x > 0 ==> curr.Some? && pending + [Run(n, curr.value)] == Encode(row[..x])
    ensures curr == Some(row[x]) ==> Encode(row[..x + 1]) == pending + [Run(n + 1, row[x])]
    ensures curr != Some(row[x]) ==>
      Encode(row[..x + 1]) == (if curr.Some? then pending + [Run(n, curr.value)] else []) + [Run(1, row[x])]
  {
    EncodeSnoc(row, x);
    if x == 0 {
      assert row[..0] == [];
    } else {
      ExtendLast(pending, n, curr.value, row[x]);
    }
  }

  /** The encodings of a sequence of pixel rows, row by row. */
  function EncodeRows(pixels: seq<seq<Color>>): (rs: seq<seq<Item>>)
    ensures |rs| == |pixels| && forall i :: 0 <= i < |pixels| ==> rs[i] == Encode(pixels[i])
  {
    if pixels == [] then [] else EncodeRows(pixels[..|pixels| - 1]) + [Encode(pixels[|pixels| - 1])]
  }

  /** The row list of a surface has the shape a row list promises. */
  lemma EncodedImage(s: Surface)
    requires s.Valid()
    ensures DividerCount(Join(EncodeRows(s.pixels))) == s.height
    ensures Rows(Join(EncodeRows(s.pixels))) == EncodeRows(s.pixels)
    ensures forall y :: 0 <= y < s.height ==> IsRle(EncodeRows(s.pixels)[y], s.pixels[y])
    ensures forall y :: 0 <= y < s.height ==> TotalCount(EncodeRows(s.pixels)[y]) == s.width
  {
    var done := EncodeRows(s.pixels);
    forall i | 0 <= i < |done| ensures IsRle(done[i], s.pixels[i]) && NoDividers(done[i]) {
      EncodeIsRle(s.pixels[i]);
    }
    SplitJoin(done);
    RowsShape(Join(done));
    forall i | 0 <= i < s.height ensures TotalCount(done[i]) == s.width {
      assert |Expand(done[i])| == |s.pixels[i]|;
    }
  }

  /**
   * The inner loop of `getcontiguousrows` (data.py:58-70): row `y` is scanned
   * column by column and its runs are appended to `result`.
   */
  method ScanRow(s: Surface, y: nat, result0: seq<Item>) returns (result: seq<Item>)
    requires s.Valid() && y < s.height
    ensures result == result0 + Encode(s.pixels[y])
  {
    result := result0;
    ghost var row := s.pixels[y];
    ghost var pending: seq<Item> := [];
    var currColour: Option<Color> := None;
    var pixelCount := 0;
    var x := 0;
    while x < s.width
      invariant 0 <= x <= s.width == |row|
      invariant result == result0 + pending
      invariant x == 0 ==> currColour == None && pending == []
      invariant x > 0 ==> currColour.Some? && pending + [Run(pixelCount, currColour.value)] == Encode(row[..x])
    {
      var pixelColour := s.GetPixel(x, y);
      ScanStep(row, x, pending, currColour, pixelCount);
      if currColour != Some(pixelColour) {
        if currColour.Some? {
          result := result + [Run(pixelCount, currColour.value)];
          pending := pending + [Run(pixelCount, currColour.value)];
        }
        currColour := Some(pixelColour);
        pixelCount := 1;
      } else {
        pixelCount := pixelCount + 1;
      }
      x := x + 1;
    }
    assert row[..x] == row;
    if currColour.Some? {
      result := result + [Run(pixelCount, currColour.value)];
      pending := pending + [Run(pixelCount, currColour.value)];
    }
  }

  /**
   * `PixelAccess.getcontiguousrows` (data.py:48-72): one pass over the rows and,
   * within each row, over the columns, merging equal neighbours into runs and
   * putting a RowDivider after every row.
   *
   * For a width of 0 the source appends the run `(0, None)` to every row; this
   * model appends no run there, so that every run names a colour.
   */
  method GetContiguousRows(s: Surface) returns (result: seq<Item>)
    requires s.Valid()
    ensures DividerCount(result) == s.height
    ensures |Rows(result)| == s.height
    ensures result == Join(Rows(result))
    ensures forall y :: 0 <= y < s.height ==> IsRle(Rows(result)[y], s.pixels[y])
    ensures forall y :: 0 <= y < s.height ==> TotalCount(Rows(result)[y]) == s.width
  {
    result := [];
    var y := 0;
    while y < s.height
      invariant 0 <= y <= s.height
      invariant result == Join(EncodeRows(s.pixels[..y]))
    {
      result := ScanRow(s, y, result);
      result := result + [RowDivider];
      assert s.pixels[..y + 1][..y] == s.pixels[..y];
      assert EncodeRows(s.pixels[..y + 1]) == EncodeRows(s.pixels[..y]) + [Encode(s.pixels[y])];
      y := y + 1;
    }
    assert s.pixels[..y] == s.pixels;
    EncodedImage(s);
  }
}
