# tableimage, modelled in Dafny

tableimage turns an image into an HTML table with one cell per run of
equal pixels, plus an optional stylesheet. This project models the core of
that conversion:

- **Row list.** `PixelAccess.getcontiguousrows` flattens a pixel surface into a
  *row list*. Within each row, runs `(count, colour)` of equal neighbouring
  pixels come first. A `RowDivider` follows every row, the last one included.
- **Palette.** `_to_palette` weights every run colour by the pixels it
  covers. It then asks `_encoding` for a prefix-free code over the 52 ASCII
  letters.
- **Code assigner.** `_encoding` is an n-ary, Huffman-style code assigner
  built on the code-tree node `_Node`. Every round it merges the lightest
  queue entries under fresh symbols.
- **Colours.** `rgb_to_html` writes a colour as `#rrggbb`, or `#rgb` when
  that is possible.
- **Markup.** `rowlist_to_html_css` writes the table and the stylesheet. The
  stylesheet holds one CSS class per palette colour.

Modules, one per file:

| file | module | models |
|---|---|---|
| results.dfy | `Results` | `Option`, `Result` and the error kinds |
| data.dfy | `Data` | `RowDivider`, the pixel surface, `getcontiguousrows` |
| encoder.dfy | `Encoder` | `_Node`, `_encoding` |
| palette.dfy | `Palette` | `_to_palette` |
| markup.dfy | `Markup` | `rgb_to_html`, decimal numbers, tag and attribute syntax |
| emitter.dfy | `Emitter` | `rowlist_to_html_css` |
| findings.dfy | `Findings` | three defects of the source, modelled as written |

### How each part is modelled

- **Loops stay loops.**
  - The loops that build lists and strings step by step are methods with
    `while`/`for` loops:
    - the pixel scan;
    - the weighting loop;
    - the merge loop;
    - the row grouping;
    - the HTML and CSS accumulation.
  - Each method is proved against a function that states what it computes:
    - `Encode` for one pixel row, and `Join` for the whole row list.
    - `ColourTotal` for the colour weights.
    - `Split`/`Rows` for the row grouping.
    - `TableText`/`Layout` and `ClassRules` for the HTML and the stylesheet.
- **The code tree is a value.** `Node` has two constructors, `Leaf` and
  `Branch`. Prefix propagation is a recursive function that returns the
  re-prefixed tree.
- **The table id is a parameter.** The source draws it at random; here the
  caller passes it in.

## Model

| member | source | states |
|---|---|---|
| Data.IsRowDivider | tableimage/data.py:15-20 | a RowDivider equals every RowDivider and no run |
| Data.ScanRow | tableimage/data.py:58-70 | scanning one row appends exactly the run-length encoding `Encode` of that pixel row to the output |
| Data.GetContiguousRows | tableimage/data.py:48-72 | the output has exactly `height` RowDividers and is the join of its rows, one per image row; every row is a run-length encoding of its pixel row (counts ≥ 1, neighbours of different colour, expansion gives the pixels back) whose counts sum to `width` |
| Data.EncodeIsRle | tableimage/data.py:60-70 | the row scan yields a run-length encoding of the row with maximal runs, at most one run per pixel, whose last run has the row's last colour |
| Data.RleUnique | tableimage/data.py:62-68 | two encodings of one row with maximal runs coincide, so the scan's output is the only such encoding |
| Data.ExtendKeepsRle | tableimage/data.py:62-68 | one more pixel either lengthens the last run or opens a new run, and the result is still an encoding of the longer row |
| Data.ExpandAppend | tableimage/data.py:64-70 | expanding concatenated runs is concatenating their expansions |
| Data.EncodedImage | tableimage/data.py:57-71 | the row-by-row encodings joined with dividers give `height` dividers, and `Rows` reads back exactly those rows |
| Data.RowsShape | tableimage/__init__.py:128-136 | a row list has one row per RowDivider, and no row holds a divider |
| Data.SplitJoin | tableimage/data.py:71 | rows without dividers, joined with a divider after each, read back as the same rows with nothing left open |
| Data.JoinSplit | tableimage/data.py:52 | a row list leaves no open row exactly when it is empty or ends in a divider, and is then the join of its rows |
| Data.JoinCurrent | tableimage/__init__.py:128-136 | every row list is the join of its closed rows followed by the runs after its last divider |
| Encoder.PrependPrefixSpec | tableimage/__init__.py:29-34 | `prepend_prefix(p)` puts `p` in front of the prefix of the node and of every descendant, in pre-order, and so in front of every code below the node |
| Encoder.SubPrependPrefixSpec | tableimage/__init__.py:20-27 | prepending to every child puts `p` in front of every prefix and code below the children |
| Encoder.Dedup | tableimage/__init__.py:52 | the alphabet without duplicates has the same symbols, each once |
| Encoder.SortIsSorted | tableimage/__init__.py:61 | sorting returns a permutation of the queue, heaviest first |
| Encoder.SortStable | tableimage/__init__.py:61 | the sort is stable: for two entries of equal weight, it returns their positions in the result, and the earlier one in the queue has the smaller position |
| Encoder.SortKeeps | tableimage/__init__.py:61 | sorting keeps a well-formed queue well formed, with its keys, length and total weight |
| Encoder.MergeGroupKeys | tableimage/__init__.py:71-72 | labelling the split-off entries moves no key and changes no weight |
| Encoder.MergeGroupCodes | tableimage/__init__.py:71-72 | after each split-off entry gets its own symbol, their codes are prefix-free together, over the alphabet, and each begins with one of the symbols handed out |
| Encoder.MergeRound | tableimage/__init__.py:63-75 | replacing the split-off group by a new internal node over the labelled group keeps the queue's keys, disjointness, well-formedness and total weight |
| Encoder.Leaves | tableimage/__init__.py:55 | the initial queue has one empty-prefixed leaf per key, weighted by its count |
| Encoder.Label | tableimage/__init__.py:71-72 | member `j` of the group gets symbol `j` prepended to its whole subtree |
| Encoder.MergeLightest | tableimage/__init__.py:61-75 | one round keeps the heavier entries of the sorted queue in order and replaces the lightest min(alphabet size, queue length) entries by one internal node over them, member `j` labelled with symbol `j`, weighted by their sum; the queue strictly shrinks without emptying, stays well formed and keeps its total weight |
| Encoder.MergeAll | tableimage/__init__.py:60-75 | the merge loop ends with `Merged` of its queue: the rounds `Round` (sort, merge the lightest min(alphabet size, queue length) entries under distinct symbols) repeated until at most one node is left (none exactly for an empty table); that node is well formed and of the same total weight, and a queue of at most one entry is left as it is |
| Encoder.RootCodes | tableimage/__init__.py:77-81 | the last node's codes cover exactly the keys and are prefix-free; with two or more keys they are non-empty and over the alphabet; a lone leaf has the code "" |
| Encoder.Encoding | tableimage/__init__.py:46-81 | error exactly when the de-duplicated alphabet has fewer than 2 symbols and there are 2 or more keys; otherwise one code per key, prefix-free, non-empty and over the alphabet for 2 or more keys, and "" for a single key; the codes are those of the node that `Merged` builds from a queue of one empty-prefixed leaf per key, in some key order, labelling with the distinct alphabet symbols in some order (`MergedCode`) |
| Palette.RunColoursMembers | tableimage/__init__.py:89-92 | a colour gets a palette entry exactly when some run has it |
| Palette.ColourTotalCountsPixels | tableimage/__init__.py:89-93 | a colour's weight is the number of its pixels in the expanded image, and 0 for a colour no run has |
| Palette.Colours | tableimage/__init__.py:89-92 | the count table's key order holds the run colours, each once |
| Palette.ColoursPrefix | tableimage/__init__.py:89-92 | the key order only grows at its end: the colours of a first part of the row list come first, in the same order, so colours are listed in order of first appearance |
| Palette.Weights | tableimage/__init__.py:88-94 | the weighting loop gives exactly the run colours as keys, each weighted by the sum of its run counts (the table `WeightTable`); dividers are skipped |
| Palette.LettersSuffice | tableimage/__init__.py:96 | the ASCII letters hold at least two distinct symbols, so the encoder cannot fail on them |
| Palette.ToPalette | tableimage/__init__.py:84-96 | the palette has exactly the run colours as keys and is prefix-free; with two or more colours every code is a non-empty string of ASCII letters; a single colour gets ""; for a non-empty image the palette is the code `Merged` builds from the pixel-count weights over the ASCII letters |
| Markup.Clamp | tableimage/__init__.py:105 | a channel is clamped into 0..255, unchanged inside that range |
| Markup.RgbToHtml | tableimage/__init__.py:99-109 | the result is `#` followed by 6 or 3 lower-case hex digits |
| Markup.RgbToHtmlShort | tableimage/__init__.py:107-108 | the 3-digit form is chosen exactly when every clamped channel has two equal hex digits (a multiple of 17) |
| Markup.RgbToHtmlRoundTrip | tableimage/__init__.py:101-108 | reading the HTML colour back gives the clamped colour |
| Markup.RgbToHtmlExamples | tableimage/__init__.py:101-103 | (255,0,84) is `#ff0054`, white is `#fff`, and (-5,260,10) is clamped to `#00ff0a` |
| Markup.NatToStringRoundTrip | tableimage/__init__.py:146 | the decimal text of a natural number reads back as that number |
| Markup.IntToString | tableimage/__init__.py:146 | `str` of an integer is non-empty and starts with `-` exactly for a negative number |
| Markup.IntToStringRoundTrip | tableimage/__init__.py:150 | `str` of an integer reads back as that integer |
| Emitter.CellAttrsSpec | tableimage/__init__.py:149-156 | a cell is styled with width `count*pixel_size` px; without CSS it also has its background, with CSS its class is the colour's palette code; it has `colspan="count"` exactly when `count > 1` |
| Emitter.CellAttrsExample | tableimage/__init__.py:172-179 | a white run of two pixels at pixel size 3 is styled `background:#fff;width:6px;` with `colspan="2"` without CSS, and styled `width:6px;` with class and colspan with CSS |
| Emitter.RowsInPalette | tableimage/__init__.py:169-171 | a palette with exactly the run colours as keys has a class for every cell's colour |
| Emitter.LayoutShape | tableimage/__init__.py:145-158 | the table has one row per RowDivider, each with the mode's row attributes, and row `i` has one cell per run of page row `i`, with that run's attributes |
| Emitter.ColoursCount | tableimage/__init__.py:189-190 | the stylesheet has exactly one class rule per palette colour |
| Emitter.GroupRows | tableimage/__init__.py:128-136 | the grouping loop gives the rows of the row list: the runs between consecutive dividers |
| Emitter.WriteRow | tableimage/__init__.py:146-158 | a row's text is its `<tr>` tag, one `<td/>` per run with that run's attributes, and `</tr>` |
| Emitter.WriteTable | tableimage/__init__.py:143-159 | the table's text is its `<table>` tag, one row text per page row, and `</table>` |
| Emitter.WriteStylesheet | tableimage/__init__.py:186-190 | the stylesheet is the row-height rule scoped by the table id, then one class rule per colour in the given order |
| Emitter.RowlistToHtmlCss | tableimage/__init__.py:112-192 | the palette is prefix-free over the run colours and, for a non-empty image, is the code `Merged` builds from the pixel-count weights over the ASCII letters; the HTML is the text of the layout of the row list; without CSS the stylesheet is empty, with CSS it is the row-height rule then one class rule per colour in palette order |
| Findings.EncodingAsWrittenRaises | tableimage/__init__.py:61 | as written, any table with two keys raises TypeError whatever the alphabet |
| Findings.PairsAsWritten | tableimage/__init__.py:107 | the shortening test, started at any of the three pairs, succeeds only on strings of at least 7 characters, since it indexes up to position 6 |
| Findings.RgbToHtmlAsWrittenExamples | tableimage/__init__.py:106-108 | as written, (255,0,84) becomes `#ff054`, which is not an HTML colour, and black raises IndexError |
| Findings.RgbToHtmlAsWrittenAgrees | tableimage/__init__.py:106-108 | the code as written agrees with the padded version exactly when no clamped channel is below 16 |
| Findings.GroupRowsAsWritten | tableimage/__init__.py:128-136 | as written, the grouping loop yields one row per divider, and every row is empty |
| Findings.OnePixelRow | tableimage/__init__.py:130 | a one-pixel image has one non-empty row, so the as-written grouping loses its run |

## Left out

- **`_Node` in place.** `_Node` objects are mutable; prepending a prefix
  updates them in place. The model rebuilds the tree as a value instead.
  - Not captured: the aliasing between the queue's nodes and the
    `leaf_nodes` list (__init__.py:58).
  - The final mapping (lines 78-80) is read from the root's leaves instead.
    These are the same leaf objects, so the mapping is the same.
- **Getters.** `_Node.get_prefix` and `get_contents_or_subnodes` are the
  `prefix` and `key`/`children` fields of `Node`.
- **Symbol order.** `_encoding` de-duplicates the alphabet through a Python
  `set`, whose order is unspecified. `Encoder.Dedup` keeps first
  occurrences and is the order the method runs with. The contracts that name
  a construction (`Encoder.MergedCode`) quantify over every order of the
  distinct symbols, so they hold whatever order the set gives.
- **Tie order.** `Encoder.Leaves` takes the keys in an arbitrary order; the
  dictionary order is not modelled there. `Encoder.MergedCode` quantifies
  over every such leaf order, and the sort keeps equal weights in that
  order (`Encoder.SortStable`).
- **Optimality.** The source does not claim optimal total code length, and
  nothing here claims it either.
- **Small alphabets.** Once line 61 keeps the sorted list, a one-symbol
  alphabet with two or more keys makes the source loop forever, and an
  empty alphabet makes it raise IndexError. `Encoder.Encoding` reports both
  as `AlphabetTooSmall`. As written, the source reaches neither: it raises
  TypeError first (see Findings).
- **Encoder.Encoding, single key.** A single key gets the code `""`, because
  the merge loop never runs. The model keeps that; it does not hand out a
  one-character code. In CSS mode its cells then get `class=""` (line 173)
  and its rule is `table#ID td. {background:...; }` (line 190), which matches
  no cell, so those cells get no background; the model reproduces this.
- **Data.ScanRow, Data.GetContiguousRows, width 0.** For a width of 0 the source appends
  the run `(0, None)` before every divider. The model appends only the
  divider, so that every run names a colour. In the source that run later
  reaches `rgb_to_html(None)`, which raises TypeError: at line 190 in CSS
  mode, and at line 150 without CSS once the row grouping is corrected. So
  the source produces no output in CSS mode, nor in no-CSS mode once the
  grouping is corrected, while the model emits empty rows.
- **Data.GetContiguousRows, surface access.** The surface is a value of
  width, height and pixels.
  - `getsize` and `getpixel` are reads of it; out-of-range access cannot
    happen.
  - `PixelAccessPillow` and image loading through PIL are foreign library
    calls and are not modelled.
- **Hashing.** `RowDivider.__hash__` (data.py:22-23) only makes dividers
  hashable, so it is not modelled.
- **Emitter.RowlistToHtmlCss, table id.** The table id is a parameter. The
  source draws 16 random ASCII letters for it (line 161).
- **Emitter.RowlistToHtmlCss, palette.** The palette is returned only as a
  ghost, since the source does not return it.
- **Emitter.RowlistToHtmlCss, palette order.** The stylesheet's rule order
  is the palette's iteration order. That order is `Palette.Colours`: first
  appearance in the row list, which is how the count dictionary is filled.
  `Encoder.Encoding` does not carry that order in its map result.
- **One loop for both modes.** The source writes two copies of the table
  loops, with different format strings for each mode. The model has one
  loop, and the attributes depend on the mode. The produced text is the
  same.
- **Not modelled: the command line.** This covers the command-line
  front-end, file I/O and the full-document wrapping templates (the `_exec`
  package).
- **Not modelled: alpha compositing.** The alpha compositing in
  `imagemanipulation` is floating-point work done through PIL and numpy.

## Findings

| source | as written | input that shows it | evidently intended | confidence | as-written member | corrected member |
|---|---|---|---|---|---|---|
| tableimage/__init__.py:61 | `queue = queue.sort(...)` rebinds the queue to None, the value `list.sort` returns, so the loop's `len(queue)` or the split raises TypeError | any palette with two colours, e.g. black and white | sort the queue in place and keep it | not executed | Findings.EncodingAsWritten, Findings.EncodingAsWrittenRaises | Encoder.Encoding |
| tableimage/__init__.py:106-107 | `hex(c)[2:]` is not zero-padded, so a channel below 16 loses a digit; with short strings the doubling test raises IndexError | (255,0,84) gives `#ff054`; (0,0,0) gives `#000` and then IndexError | two hex digits per channel, `#ff0054` as the docstring says | not executed | Findings.RgbToHtmlAsWritten, Findings.RgbToHtmlAsWrittenExamples, Findings.RgbToHtmlAsWrittenAgrees | Markup.RgbToHtml, Markup.RgbToHtmlRoundTrip |
| tableimage/__init__.py:130 | `currow = []` inside the loop drops every run, so every page row is empty and the table has no cells | a 1×1 image: row list `[(1, black), RowDivider]` | runs between consecutive dividers form one row | not executed | Findings.GroupRowsAsWritten, Findings.OnePixelRow | Emitter.GroupRows |
