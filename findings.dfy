/**
 * Three places where tableimage/__init__.py does not do what it evidently
 * means to, modelled as written. The rest of the model uses the intended
 * behaviour: Encoder.Encoding, Markup.RgbToHtml and Emitter.GroupRows.
 */
module Findings {
  import opened Results
  import opened Data
  import opened Markup

  // ---------------------------------------------------------------------------
  // `queue = queue.sort(...)` (line 61)

  /**
   * `_encoding` as written: `list.sort` sorts in place and returns None, so
   * the first round rebinds `queue` to None, and the first `len(queue)` after
   * it (line 63) raises TypeError. The loop is entered exactly when there are
   * two or more keys; otherwise every key keeps its empty leaf prefix. The
   * function states that outcome of lines 55-63 directly.
   */
  function EncodingAsWritten<K>(count: map<K, nat>, alphabet: string): Result<map<K, string>> {
    if |count| >= 2 then Err(TypeError) else Ok(map k | k in count :: "")
  }

  /** Any mapping with two keys fails, whatever the alphabet. */
  lemma EncodingAsWrittenRaises(alphabet: string)
    ensures EncodingAsWritten(map[Color(0, 0, 0) := 1, Color(255, 255, 255) := 1], alphabet) == Err(TypeError)
  {
    var m := map[Color(0, 0, 0) := 1, Color(255, 255, 255) := 1];
    assert Color(0, 0, 0) in m && Color(255, 255, 255) in m;
    assert |m.Keys| >= 2 by {
      assert {Color(0, 0, 0), Color(255, 255, 255)} <= m.Keys;
    }
  }

  // ---------------------------------------------------------------------------
  // `hex(component)[2:]` (lines 106-108)

  /** `hex(v)[2:]`: the lower-case hex digits of `v` without padding. */
  function HexUnpadded(v: nat): (s: string)
    requires v < 256
  {
    if v < 16 then [HexDigit(v)] else HexPair(v)
  }

  /**
   * The test `all(s[2*i+1] == s[2*i+2] for i in range(3))` from pair `i`
   * on: it stops at the first pair that differs, and raises IndexError when
   * a pair it reaches runs past the end of the string.
   */
  function PairsAsWritten(s: string, i: nat): (r: Result<bool>)
    requires i <= 3
    ensures i < 3 && r == Ok(true) ==> |s| >= 7
    decreases 3 - i
  {
    if i == 3 then Ok(true)
    else if 2 * i + 2 >= |s| then Err(IndexError)
    else if s[2 * i + 1] != s[2 * i + 2] then Ok(false)
    else PairsAsWritten(s, i + 1)
  }

  /** `rgb_to_html` as written, with unpadded channels. */
  function RgbToHtmlAsWritten(c: Color): Result<string> {
    var k := Clamped(c);
    var s := "#" + HexUnpadded(k.r) + HexUnpadded(k.g) + HexUnpadded(k.b);
    match PairsAsWritten(s, 0)
    case Err(e) => Err(e)
    case Ok(short) => Ok(if short then ['#', s[1], s[3], s[5]] else s)
  }

  /**
   * A channel below 16 loses a digit: (255, 0, 84) is written `#ff054`,
   * which is no HTML colour, and black raises IndexError.
   */
  lemma RgbToHtmlAsWrittenExamples()
    ensures RgbToHtmlAsWritten(Color(255, 0, 84)) == Ok("#ff054")
    ensures ParseHtmlColour("#ff054") == None
    ensures RgbToHtmlAsWritten(Color(0, 0, 0)) == Err(IndexError)
  {
    assert HexUnpadded(255) == "ff" && HexUnpadded(0) == "0" && HexUnpadded(84) == "54";
    var s := "#" + HexUnpadded(255) + HexUnpadded(0) + HexUnpadded(84);
    assert s == "#ff054";
    assert PairsAsWritten(s, 1) == Ok(false);
    var z := "#" + HexUnpadded(0) + HexUnpadded(0) + HexUnpadded(0);
    assert z == "#000";
    assert PairsAsWritten(z, 1) == Err(IndexError);
  }

  /** The code as written is right exactly where no clamped channel is below 16. */
  lemma {:induction false} RgbToHtmlAsWrittenAgrees(c: Color)
    ensures RgbToHtmlAsWritten(c) == Ok(RgbToHtml(c)) <==> Clamp(c.r) >= 16 && Clamp(c.g) >= 16 && Clamp(c.b) >= 16
  {
    var k := Clamped(c);
    var s := "#" + HexUnpadded(k.r) + HexUnpadded(k.g) + HexUnpadded(k.b);
    if k.r >= 16 && k.g >= 16 && k.b >= 16 {
      assert s == FullHex(c);
      assert |s| == 7;
      var short := s[1] == s[2] && s[3] == s[4] && s[5] == s[6];
      assert PairsAsWritten(s, 0) == Ok(short);
    } else {
      assert |s| < 7;
      RgbToHtmlShort(c);
    }
  }

  // ---------------------------------------------------------------------------
  // `currow = []` inside the grouping loop (line 130)

  /**
   * The grouping loop as written: the open row is created afresh for every
   * item, so a run is added to a list that is dropped at the next item and
   * every row closed at a RowDivider is empty.
   */
  method GroupRowsAsWritten(rowlist: seq<Item>) returns (pageRows: seq<seq<Item>>)
    ensures |pageRows| == DividerCount(rowlist)
    ensures forall i :: 0 <= i < |pageRows| ==> pageRows[i] == []
  {
    pageRows := [];
    for i := 0 to |rowlist|
      invariant |pageRows| == DividerCount(rowlist[..i])
      invariant forall j :: 0 <= j < |pageRows| ==> pageRows[j] == []
    {
      assert rowlist[..i + 1][..i] == rowlist[..i];
      var currow: seq<Item> := [];
      if IsRowDivider(rowlist[i]) {
        pageRows := pageRows + [currow];
        currow := [];
      } else {
        currow := currow + [rowlist[i]];
      }
    }
    assert rowlist[..|rowlist|] == rowlist;
  }

  /** A one-pixel image has a row holding its run; the loop as written gives that row empty. */
  lemma OnePixelRow()
    ensures DividerCount([Run(1, Color(0, 0, 0)), RowDivider]) == 1
    ensures Rows([Run(1, Color(0, 0, 0)), RowDivider]) == [[Run(1, Color(0, 0, 0))]]
  {
    var items := [Run(1, Color(0, 0, 0)), RowDivider];
    assert items[..1] == [Run(1, Color(0, 0, 0))];
    assert items[..1][..0] == [];
    assert Split(items[..1]) == Grouping([], [Run(1, Color(0, 0, 0))]);
  }
}
