/**
 * `rowlist_to_html_css` (tableimage/__init__.py:112-192): a row list becomes
 * an HTML table with one row per RowDivider and one cell per run, and, unless
 * `no_css` is set, a stylesheet scoped to the table's id with one class per
 * palette colour.
 *
 * The source writes the two modes as two copies of the same loops with
 * different format strings. Here one loop emits the tags, and the attributes
 * of the table, of a row and of a cell depend on the mode; the text produced
 * is the same.
 */
module Emitter {
  import opened Data
  import opened Encoder
  import opened Palette
  import opened Markup

  // ---------------------------------------------------------------------------
  // Attributes

  const TableStyle: seq<Decl> := [Decl("table-layout", "fixed"), Decl("border", "0"), Decl("border-spacing", "0")]

  /** The `<table>` attributes: the fixed layout style, and the table id when CSS is used (lines 143, 164). */
  function TableAttrs(noCss: bool, tableId: string): seq<Attr>
  {
    var style := Attr("style", StyleText(TableStyle));
    if noCss then [style] else [style, Attr("id", tableId)]
  }

  /** The `<tr>` attributes: an inline line height without CSS, none with it (lines 146, 168). */
  function RowAttrs(noCss: bool, pixelSize: int): seq<Attr>
  {
    if noCss then [Attr("style", StyleText([Decl("line-height", Px(pixelSize))]))] else []
  }

  /** The `<td>` attributes for a run of `count` pixels (lines 149-156, 171-179). */
  function CellAttrs(count: nat, colour: Color, noCss: bool, pixelSize: int, palette: map<Color, string>): seq<Attr>
    requires !noCss ==> colour in palette
  {
    var width := Decl("width", Px(count * pixelSize));
    var colspan := if count > 1 then [Attr("colspan", IntToString(count))] else [];
    if noCss then [Attr("style", StyleText([Decl("background", RgbToHtml(colour)), width]))] + colspan
    else [Attr("style", StyleText([width])), Attr("class", palette[colour])] + colspan
  }

  /** Some attribute of the list is called `name`. */
  predicate HasAttr(attrs: seq<Attr>, name: string) {
    exists i :: 0 <= i < |attrs| && attrs[i].name == name
  }

  /**
   * A cell's style gives it the width `count * pixelSize` px; without CSS the
   * style also holds its background colour, with CSS its class is the
   * colour's palette code; and it carries a `colspan` of `count` exactly when
   * the run is longer than one pixel.
   */
  lemma CellAttrsSpec(count: nat, colour: Color, noCss: bool, pixelSize: int, palette: map<Color, string>)
    requires !noCss ==> colour in palette
    ensures var attrs := CellAttrs(count, colour, noCss, pixelSize, palette);
      && |attrs| >= 1 && attrs[0].name == "style"
      && (noCss ==>
            attrs[0].value == StyleText([Decl("background", RgbToHtml(colour)), Decl("width", Px(count * pixelSize))]))
      && (!noCss ==>
            |attrs| >= 2 && attrs[0].value == StyleText([Decl("width", Px(count * pixelSize))]) &&
            attrs[1] == Attr("class", palette[colour]))
      && (HasAttr(attrs, "colspan") <==> count > 1)
      && (count > 1 ==> attrs[|attrs| - 1] == Attr("colspan", IntToString(count)))
  {
    var attrs := CellAttrs(count, colour, noCss, pixelSize, palette);
    assert |"colspan"| == 7 && |"style"| == 5 && |"class"| == 5;
    if count > 1 {
      assert attrs[|attrs| - 1].name == "colspan";
    }
  }

  // ---------------------------------------------------------------------------
  // The table as a structure

  /** A table row: its attributes and the attributes of each of its cells. */
  datatype Row = Row(attrs: seq<Attr>, cells: seq<seq<Attr>>)

  datatype Table = Table(attrs: seq<Attr>, rows: seq<Row>)

  /** Every item of the row is a run, and (with CSS) its colour has a palette class. */
  ghost predicate RowOk(row: seq<Item>, noCss: bool, palette: map<Color, string>) {
    forall j :: 0 <= j < |row| ==> row[j].Run? && (!noCss ==> row[j].colour in palette)
  }

  ghost predicate RowsOk(rows: seq<seq<Item>>, noCss: bool, palette: map<Color, string>) {
    forall i :: 0 <= i < |rows| ==> RowOk(rows[i], noCss, palette)
  }

  /** One cell per run of the row, cell `j` with the attributes of run `j`. */
  function CellsOf(row: seq<Item>, noCss: bool, pixelSize: int, palette: map<Color, string>): (cells: seq<seq<Attr>>)
    requires RowOk(row, noCss, palette)
  {
    seq(|row|, j requires 0 <= j < |row| => CellAttrs(row[j].count, row[j].colour, noCss, pixelSize, palette))
  }

  /** One table row per row of runs, row `i` with the cells of run row `i`. */
  function RowsOf(rows: seq<seq<Item>>, noCss: bool, pixelSize: int, palette: map<Color, string>): (rs: seq<Row>)
    requires RowsOk(rows, noCss, palette)
  {
    seq(|rows|, i requires 0 <= i < |rows| => Row(RowAttrs(noCss, pixelSize), CellsOf(rows[i], noCss, pixelSize, palette)))
  }

  /** The table the emitter writes for a row list. */
  function Layout(rowlist: seq<Item>, noCss: bool, pixelSize: int, tableId: string, palette: map<Color, string>): Table
    requires RowsOk(Rows(rowlist), noCss, palette)
  {
    Table(TableAttrs(noCss, tableId), RowsOf(Rows(rowlist), noCss, pixelSize, palette))
  }

  // ---------------------------------------------------------------------------
  // The table as text

  function CellsText(cells: seq<seq<Attr>>): string {
    if cells == [] then "" else CellsText(cells[..|cells| - 1]) + EmptyTag("td", cells[|cells| - 1])
  }

  function RowText(r: Row): string {
    StartTag("tr", r.attrs) + CellsText(r.cells) + EndTag("tr")
  }

  function RowsText(rows: seq<Row>): string {
    if rows == [] then "" else RowsText(rows[..|rows| - 1]) + RowText(rows[|rows| - 1])
  }

  function TableText(t: Table): string {
    StartTag("table", t.attrs) + RowsText(t.rows) + EndTag("table")
  }

  // ---------------------------------------------------------------------------
  // The stylesheet (lines 185-190)

  /** Every `tr` of the table is one pixel size high. */
  function RowHeightRule(tableId: string, pixelSize: int): string {
    "table#" + tableId + " tr{line-height:" + Px(pixelSize) + ";}\n"
  }

  /** The cells of class `cls` get the background `colour`. */
  function ClassRule(tableId: string, cls: string, colour: Color): string {
    "table#" + tableId + " td." + cls + " {background:" + RgbToHtml(colour) + "; }\n"
  }

  /** One class rule per colour, in the given order. */
  function ClassRules(tableId: string, colours: seq<Color>, palette: map<Color, string>): string
    requires forall c :: c in colours ==> c in palette
  {
    if colours == [] then ""
    else
      var c := colours[|colours| - 1];
      ClassRules(tableId, colours[..|colours| - 1], palette) + ClassRule(tableId, palette[c], c)
  }

  // ---------------------------------------------------------------------------
  // Facts about the layout

  /** Every item of every row of a row list is a run whose colour is a run colour of the list. */
  lemma {:induction false} SplitColours(items: seq<Item>)
    ensures RowsOk(Split(items).rows, false, ColourKeys(items))
    ensures RowOk(Split(items).current, false, ColourKeys(items))
  {
    if items != [] {
      var init := items[..|items| - 1];
      var x := items[|items| - 1];
      SplitColours(init);
      var g := Split(init);
      ColourKeysGrow(init, x);
      assert items == init + [x];
      forall i | 0 <= i < |g.rows| ensures RowOk(g.rows[i], false, ColourKeys(items)) {
        assert RowOk(g.rows[i], false, ColourKeys(init));
      }
      assert RowOk(g.current, false, ColourKeys(items));
    }
  }

  /** The run colours as the key set of a map, so they can stand for a palette in `RowOk`. */
  function ColourKeys(items: seq<Item>): (m: map<Color, string>)
    ensures m.Keys == RunColours(items)
  {
    map c | c in RunColours(items) :: ""
  }

  lemma ColourKeysGrow(init: seq<Item>, x: Item)
    ensures RunColours(init) <= RunColours(init + [x])
    ensures x.Run? ==> x.colour in RunColours(init + [x])
  {
    assert (init + [x])[..|init|] == init;
  }

  lemma RowsInPalette(rowlist: seq<Item>, noCss: bool, palette: map<Color, string>)
    requires palette.Keys == RunColours(rowlist)
    ensures RowsOk(Rows(rowlist), noCss, palette)
  {
    SplitColours(rowlist);
    var rows: seq<seq<Item>> := Rows(rowlist);
    forall i | 0 <= i < |rows| ensures RowOk(rows[i], noCss, palette) {
      assert RowOk(rows[i], false, ColourKeys(rowlist));
    }
  }

  /**
   * The table has one row per RowDivider of the row list, each with the row
   * attributes of the mode, and row `i` has one cell per run of row `i` of
   * the list, cell `j` with the attributes of run `j`.
   */
  lemma LayoutShape(rowlist: seq<Item>, noCss: bool, pixelSize: int, tableId: string, palette: map<Color, string>)
    requires RowsOk(Rows(rowlist), noCss, palette)
    ensures Layout(rowlist, noCss, pixelSize, tableId, palette).attrs == TableAttrs(noCss, tableId)
    ensures |Layout(rowlist, noCss, pixelSize, tableId, palette).rows| == DividerCount(rowlist)
    ensures forall i :: 0 <= i < DividerCount(rowlist) ==>
      var r := Layout(rowlist, noCss, pixelSize, tableId, palette).rows[i];
      var runs := Rows(rowlist)[i];
      && r.attrs == RowAttrs(noCss, pixelSize)
      && |r.cells| == |runs|
      && forall j :: 0 <= j < |runs| ==> r.cells[j] == CellAttrs(runs[j].count, runs[j].colour, noCss, pixelSize, palette)
  {
    RowsShape(rowlist);
  }

  /** A sequence without repetitions has as many elements as its set. */
  lemma {:induction false} DistinctCard(cs: seq<Color>)
    requires forall i, j :: 0 <= i < j < |cs| ==> cs[i] != cs[j]
    ensures |(set c | c in cs)| == |cs|
  {
    if cs != [] {
      var init, last := cs[..|cs| - 1], cs[|cs| - 1];
      assert forall i | 0 <= i < |init| :: init[i] == cs[i];
      DistinctCard(init);
      assert (set c | c in cs) == (set c | c in init) + {last};
      assert last !in (set c | c in init);
    }
  }

  /** The palette's order: every palette colour once. */
  lemma ColoursCount(items: seq<Item>)
    ensures |Colours(items)| == |RunColours(items)|
  {
    var cs := Colours(items);
    DistinctCard(cs);
    assert (set c | c in cs) == RunColours(items);
  }

  /** The attributes both modes give a white run of two pixels at pixel size 3. */
  lemma CellAttrsExample()
    ensures CellAttrs(2, Color(255, 255, 255), true, 3, map[])
      == [Attr("style", StyleText([Decl("background", "#fff"), Decl("width", "6px")])), Attr("colspan", "2")]
    ensures CellAttrs(2, Color(255, 255, 255), false, 3, map[Color(255, 255, 255) := "a"])
      == [Attr("style", StyleText([Decl("width", "6px")])), Attr("class", "a"), Attr("colspan", "2")]
  {
    RgbToHtmlExamples();
    assert Px(6) == "6px";
  }

  // ---------------------------------------------------------------------------
  // One step of each emitting loop

  lemma CellsStep(prefix: string, cells: seq<seq<Attr>>, j: nat)
    requires j < |cells|
    ensures prefix + CellsText(cells[..j]) + EmptyTag("td", cells[j]) == prefix + CellsText(cells[..j + 1])
  {
    assert cells[..j + 1][..j] == cells[..j];
  }

  lemma RowsStep(prefix: string, rows: seq<Row>, i: nat)
    requires i < |rows|
    ensures prefix + RowsText(rows[..i]) + RowText(rows[i]) == prefix + RowsText(rows[..i + 1])
  {
    assert rows[..i + 1][..i] == rows[..i];
  }

  lemma RulesStep(prefix: string, tableId: string, colours: seq<Color>, k: nat, palette: map<Color, string>)
    requires k < |colours| && forall c :: c in colours ==> c in palette
    ensures prefix + ClassRules(tableId, colours[..k], palette) + ClassRule(tableId, palette[colours[k]], colours[k])
            == prefix + ClassRules(tableId, colours[..k + 1], palette)
  {
    var done, c := colours[..k], colours[k];
    assert colours[..k + 1][..k] == done && colours[..k + 1][k] == c;
    assert ClassRules(tableId, colours[..k + 1], palette) == ClassRules(tableId, done, palette) + ClassRule(tableId, palette[c], c);
  }

  // ---------------------------------------------------------------------------
  // `rowlist_to_html_css`

  /**
   * The grouping loop (lines 127-136): a RowDivider closes the open row, any
   * other item joins it. The source creates the open row afresh for every
   * item, so that every row it closes is empty; this is the grouping it
   * evidently intends (see the Findings module for the code as written).
   */
  method GroupRows(rowlist: seq<Item>) returns (pageRows: seq<seq<Item>>)
    ensures pageRows == Rows(rowlist)
  {
    pageRows := [];
    var currow: seq<Item> := [];
    for i := 0 to |rowlist|
      invariant Grouping(pageRows, currow) == Split(rowlist[..i])
    {
      assert rowlist[..i + 1][..i] == rowlist[..i];
      if IsRowDivider(rowlist[i]) {
        pageRows := pageRows + [currow];
        currow := [];
      } else {
        currow := currow + [rowlist[i]];
      }
    }
    assert rowlist[..|rowlist|] == rowlist;
  }

  /** The text of one table row (lines 146-158 and 168-180): the `<tr>` tag, one `<td/>` per run, `</tr>`. */
  method WriteRow(row: seq<Item>, noCss: bool, pixelSize: int, palette: map<Color, string>) returns (text: string)
    requires RowOk(row, noCss, palette)
    ensures text == RowText(Row(RowAttrs(noCss, pixelSize), CellsOf(row, noCss, pixelSize, palette)))
  {
    ghost var cells := CellsOf(row, noCss, pixelSize, palette);
    var start := StartTag("tr", RowAttrs(noCss, pixelSize));
    text := start;
    for j := 0 to |row|
      invariant text == start + CellsText(cells[..j])
    {
      CellsStep(start, cells, j);
      text := text + EmptyTag("td", CellAttrs(row[j].count, row[j].colour, noCss, pixelSize, palette));
    }
    assert cells[..|row|] == cells;
    text := text + EndTag("tr");
  }

  /** The table loops (lines 143-159 and 164-181): the `<table>` tag, one row per page row, `</table>`. */
  method WriteTable(pageRows: seq<seq<Item>>, noCss: bool, pixelSize: int, tableId: string, palette: map<Color, string>)
    returns (html: string)
    requires RowsOk(pageRows, noCss, palette)
    ensures html == TableText(Table(TableAttrs(noCss, tableId), RowsOf(pageRows, noCss, pixelSize, palette)))
  {
    ghost var rows := RowsOf(pageRows, noCss, pixelSize, palette);
    var open := StartTag("table", TableAttrs(noCss, tableId));
    html := open;
    for i := 0 to |pageRows|
      invariant html == open + RowsText(rows[..i])
    {
      assert RowOk(pageRows[i], noCss, palette);
      var rowText := WriteRow(pageRows[i], noCss, pixelSize, palette);
      RowsStep(open, rows, i);
      html := html + rowText;
    }
    assert rows[..|pageRows|] == rows;
    html := html + EndTag("table");
  }

  /** The stylesheet loop (lines 185-190): the row-height rule, then one class rule per colour. */
  method WriteStylesheet(colours: seq<Color>, tableId: string, pixelSize: int, palette: map<Color, string>)
    returns (css: string)
    requires forall c :: c in colours ==> c in palette
    ensures css == RowHeightRule(tableId, pixelSize) + ClassRules(tableId, colours, palette)
  {
    var rule := RowHeightRule(tableId, pixelSize);
    css := rule;
    for k := 0 to |colours|
      invariant css == rule + ClassRules(tableId, colours[..k], palette)
    {
      RulesStep(rule, tableId, colours, k, palette);
      css := css + ClassRule(tableId, palette[colours[k]], colours[k]);
    }
    assert colours[..|colours|] == colours;
  }

  /**
   * Writes the table and, unless `noCss`, its stylesheet. The table id, which
   * the source draws at random from the ASCII letters, is a parameter. The
   * palette is the one `ToPalette` computes for the row list; the caller gets
   * it only as a ghost, as the source does not return it. The stylesheet
   * lists the colours in the palette's order, the order of their first runs.
   */
  method RowlistToHtmlCss(rowlist: seq<Item>, noCss: bool, pixelSize: int, tableId: string)
    returns (html: string, css: string, ghost palette: map<Color, string>)
    ensures palette.Keys == RunColours(rowlist) && PrefixFree(palette)
    ensures |RunColours(rowlist)| > 0 ==> MergedCode(palette, WeightTable(rowlist), AsciiLetters)
    ensures RowsOk(Rows(rowlist), noCss, palette)
    ensures html == TableText(Layout(rowlist, noCss, pixelSize, tableId, palette))
    ensures noCss ==> css == ""
    ensures !noCss ==> css == RowHeightRule(tableId, pixelSize) + ClassRules(tableId, Colours(rowlist), palette)
  {
    var pal := ToPalette(rowlist);
    palette := pal;
    RowsInPalette(rowlist, noCss, pal);
    var pageRows := GroupRows(rowlist);
    html := WriteTable(pageRows, noCss, pixelSize, tableId, pal);
    css := "";
    if !noCss {
      css := WriteStylesheet(Colours(rowlist), tableId, pixelSize, pal);
    }
  }
}
