/**
 * The colour palette of tableimage/__init__.py:84-96: every run colour of a
 * row list weighted by the number of pixels it covers, then given a code
 * over the ASCII letters.
 */
module Palette {
  import opened Data
  import opened Encoder

  /** Number of pixels the runs of colour `c` cover (dividers count for nothing). */
  function ColourTotal(items: seq<Item>, c: Color): nat
  {
    if items == [] then 0
    else
      ColourTotal(items[..|items| - 1], c) +
      (match items[|items| - 1] case Run(k, d) => if d == c then k else 0 case RowDivider => 0)
  }

  /** The colours of the runs of a row list. */
  function RunColours(items: seq<Item>): set<Color>
  {
    if items == [] then {}
    else RunColours(items[..|items| - 1]) + (match items[|items| - 1] case Run(_, d) => {d} case RowDivider => {})
  }

  /** A colour is a run colour exactly when some run of the list has it. */
  lemma {:induction false} RunColoursMembers(items: seq<Item>, c: Color)
    ensures c in RunColours(items) <==> exists i :: 0 <= i < |items| && items[i].Run? && items[i].colour == c
  {
    if items != [] {
      var init := items[..|items| - 1];
      RunColoursMembers(init, c);
      if exists i :: 0 <= i < |items| && items[i].Run? && items[i].colour == c {
        var i :| 0 <= i < |items| && items[i].Run? && items[i].colour == c;
        if i < |init| {
          assert init[i] == items[i];
        }
      }
      if exists i :: 0 <= i < |init| && init[i].Run? && init[i].colour == c {
        var i :| 0 <= i < |init| && init[i].Run? && init[i].colour == c;
        assert items[i] == init[i];
      }
    }
  }

  lemma {:induction false} RepeatCount(d: Color, k: nat, c: Color)
    ensures multiset(Repeat(d, k))[c] == if d == c then k else 0
  {
    if k > 0 {
      RepeatCount(d, k - 1, c);
      assert Repeat(d, k) == Repeat(d, k - 1) + [d];
    }
  }

  /**
   * A colour's total is the number of its pixels in the image the row list
   * stands for, and is 0 for a colour no run has.
   */
  lemma {:induction false} ColourTotalCountsPixels(items: seq<Item>, c: Color)
    ensures ColourTotal(items, c) == multiset(Expand(items))[c]
    ensures c !in RunColours(items) ==> ColourTotal(items, c) == 0
  {
    if items != [] {
      var init := items[..|items| - 1];
      ColourTotalCountsPixels(init, c);
      match items[|items| - 1]
      case Run(k, d) =>
        RepeatCount(d, k, c);
        assert Expand(items) == Expand(init) + Repeat(d, k);
      case RowDivider =>
        assert Expand(items) == Expand(init) + [];
    }
  }

  /**
   * The distinct run colours in order of first appearance: the insertion
   * order of the count dictionary (lines 89-94), which the palette and then
   * the stylesheet keep.
   */
  function Colours(items: seq<Item>): (cs: seq<Color>)
    ensures forall i, j :: 0 <= i < j < |cs| ==> cs[i] != cs[j]
    ensures forall c :: c in cs <==> c in RunColours(items)
  {
    if items == [] then []
    else
      var cs := Colours(items[..|items| - 1]);
      match items[|items| - 1]
      case Run(_, d) => if d in cs then cs else cs + [d]
      case RowDivider => cs
  }

  /**
   * The palette order only grows at its end: the colours of a first part of
   * the row list come first, in the same order, so every colour keeps the
   * place of its first run.
   */
  lemma {:induction false} ColoursPrefix(items: seq<Item>, n: nat)
    requires n <= |items|
    ensures Colours(items[..n]) <= Colours(items)
    decreases |items| - n
  {
    if n < |items| {
      ColoursPrefix(items, n + 1);
      assert items[..n + 1][..n] == items[..n];
    } else {
      assert items[..n] == items;
    }
  }

  /** How the run colours and the colour totals grow by one item. */
  lemma PrefixStep(items: seq<Item>, i: nat)
    requires i < |items|
    ensures RunColours(items[..i + 1]) ==
      RunColours(items[..i]) + (if items[i].Run? then {items[i].colour} else {})
    ensures forall c :: (ColourTotal(items[..i + 1], c) ==
      ColourTotal(items[..i], c) + (if items[i].Run? && items[i].colour == c then items[i].count else 0))
  {
    assert items[..i + 1][..i] == items[..i];
  }

  /** One item of the weighting loop keeps the weights equal to the colour totals so far. */
  lemma WeightsStep(items: seq<Item>, i: nat, before: map<Color, nat>, after: map<Color, nat>)
    requires i < |items|
    requires before.Keys == RunColours(items[..i])
    requires forall c :: c in before ==> before[c] == ColourTotal(items[..i], c)
    requires items[i].RowDivider? ==> after == before
    requires items[i].Run? ==>
      after == before[items[i].colour := (if items[i].colour in before then before[items[i].colour] else 0) + items[i].count]
    ensures after.Keys == RunColours(items[..i + 1])
    ensures forall c :: c in after ==> after[c] == ColourTotal(items[..i + 1], c)
  {
    PrefixStep(items, i);
    if items[i].Run? {
      ColourTotalCountsPixels(items[..i], items[i].colour);
    }
  }

  /** The count table: every run colour with the number of pixels its runs cover. */
  function WeightTable(rowlist: seq<Item>): map<Color, nat> {
    map c | c in RunColours(rowlist) :: ColourTotal(rowlist, c)
  }

  /**
   * The weighting loop of `_to_palette` (lines 88-94): a colour is entered
   * with weight 0 when first seen, then every run adds its count; dividers
   * are skipped.
   */
  method Weights(rowlist: seq<Item>) returns (count: map<Color, nat>)
    ensures count.Keys == RunColours(rowlist)
    ensures forall c :: c in count ==> count[c] == ColourTotal(rowlist, c)
    ensures count == WeightTable(rowlist)
  {
    count := map[];
    for i := 0 to |rowlist|
      invariant count.Keys == RunColours(rowlist[..i])
      invariant forall c :: c in count ==> count[c] == ColourTotal(rowlist[..i], c)
    {
      var item := rowlist[i];
      ghost var before := count;
      if !IsRowDivider(item) {
        if item.colour !in count {
          count := count[item.colour := 0];
        }
        count := count[item.colour := count[item.colour] + item.count];
      }
      WeightsStep(rowlist, i, before, count);
    }
    assert rowlist[..|rowlist|] == rowlist;
  }

  /** `string.ascii_letters`: the lower-case letters, then the upper-case ones. */
  const AsciiLetters: string := "abcdefghijklmnopqrstuvwxyz" + "ABCDEFGHIJKLMNOPQRSTUVWXYZ"

  /** An alphabet with two different symbols keeps at least two once duplicates are removed. */
  lemma TwoSymbols(s: string, a: char, b: char)
    requires a in s && b in s && a != b
    ensures |Dedup(s)| >= 2
  {
    var r := Dedup(s);
    var i :| 0 <= i < |r| && r[i] == a;
    var j :| 0 <= j < |r| && r[j] == b;
    assert i != j;
  }

  lemma LettersSuffice()
    ensures |Dedup(AsciiLetters)| >= 2
  {
    assert AsciiLetters[0] == 'a' && AsciiLetters[1] == 'b';
    TwoSymbols(AsciiLetters, 'a', 'b');
  }

  /**
   * `_to_palette`: every run colour of the row list gets a prefix-free code;
   * with two or more colours the codes are non-empty strings of ASCII
   * letters, and a single colour gets the empty code.
   */
  method ToPalette(rowlist: seq<Item>) returns (palette: map<Color, string>)
    ensures palette.Keys == RunColours(rowlist)
    ensures PrefixFree(palette)
    ensures |RunColours(rowlist)| >= 2 ==>
      forall c :: c in palette ==> palette[c] != "" && CodeOver(palette[c], AsciiLetters)
    ensures |RunColours(rowlist)| == 1 ==> forall c :: c in palette ==> palette[c] == ""
    ensures |RunColours(rowlist)| > 0 ==> MergedCode(palette, WeightTable(rowlist), AsciiLetters)
  {
    var count := Weights(rowlist);
    LettersSuffice();
    assert |count| == |RunColours(rowlist)|;
    var r := Encoding(count, AsciiLetters);
    palette := r.value;
  }
}
