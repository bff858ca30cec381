# scriptit shape: terminal text formatting, modelled in Dafny

`scriptit/shape.py` formats text for a terminal. It wraps a line greedily into
sublines of a given length, draws a progress bar, frames text in a box, and lays
out and renders an ASCII table. This project models each of these operations and
proves what their output looks like.

| file | module | models |
|---|---|---|
| `text.dfy` | `Text` | Python's `split`, `join`, `s[:-1]`, `c * n` and `int()` of a real; sums and maxima used by the rest |
| `word_wrap.dfy` | `WordWrap` | `_word_wrap_to_len`: the nested loops as a method, proved equal to a recursive specification (`Pack`, `Lines`, `Wrapped`) |
| `progress_bar.dfy` | `ProgressBar` | `progress_bar` |
| `box.dfy` | `Box` | `box`: the wrapping loop and the framing loop as methods, specified by `BoxLines` |
| `table_layout.dfy` | `TableLayout` | lines 94-124 of `table`: the table width, the proportional column widths and the collapse pass |
| `table_render.dfy` | `TableRender` | lines 134-157 of `table` and `_make_hline`: the rendering loops as methods, specified by `TableLines` |
| `table_shape.dfy` | `TableShape` | properties of the rendered table: rectangular, aligned columns, borders and dividers |
| `table.dfy` | `Table` | `table` as a whole, including the wrapping of every cell (lines 126-132) |

Printed length (`_printed_len`) is plain string length. Every width is an
explicit parameter. Text is `seq<char>`.

The two later failures of `table` are modelled as values of a `Result` type:
- `NoExtraToBorrow`: the assertion on line 120;
- `ColumnCollapsed(i)`: the assertion on line 130.

So are the exceptions Python raises:
- `NoColumns`: `col_widths[-1]` on an empty list;
- `EmptyColumn(i)`: `max()` of an empty column;
- `ZeroTotalWidth`: a division by a zero `total_width`.

The collapse pass (lines 114-124) is modelled exactly as the code is written:
- the donor is the narrowest column at least 4 wide, the leftmost among equal widths (the sort is stable);
- the `extra` tuples are never refreshed, so the donor's width is recomputed from its original width each time;
- every collapsed column is set to width 2.

The assertion on line 130 then rejects any column of width 2. So a call that
succeeds never had a collapsed column. `Table.CollapseRejected` proves this, and
`Table.Table` states it as: a table is produced exactly when the layout succeeds
and every initial column width is at least 4.

The source's documentation says that a given `width` fixes both bounds of the
table width. The code only uses `width` as the default of `min_width` (line 97).
The model follows the code.

`_word_wrap_to_len` loops forever when `max_len <= 1` and some token is longer
than `max_len`. There, the `cutoff <= 0` break leaves the token list unchanged.
The model's `WordWrap.Terminates` predicate is exactly the domain on which the
loops stop. Inside it, `Pack` and `Lines` terminate by a measure. Outside it,
`WordWrap.NeverEnds` proves that the token list is not empty after any number
of outer passes. It holds for every line once `max_len >= 2`. `box` and `table` call the
wrapper only inside that domain: `box` requires it, and `table` reaches the
wrapper only with `max_len >= 2`, because of line 130.

## Model

| member | source | states |
|---|---|---|
| WordWrap.WordWrapToLen | scriptit/shape.py:166-202 | The nested loops return the sublines of `Wrapped`. The result is never empty, a line that fits comes back alone with its own length, every subline is at most `max_len` long, and `longest` is the length of the longest subline (`MaxLen`). |
| WordWrap.WrapLoop | scriptit/shape.py:181-202 | The outer loop over the token list returns the sublines of `Lines`, and `longest` is their maximum length. |
| WordWrap.PackSubline | scriptit/shape.py:185-198 | One pass of the inner loop consumes tokens or characters (the measure drops) and yields a non-empty subline of at most `max_len + 1` characters, trailing space included. |
| WordWrap.Pack | scriptit/shape.py:186-198 | The inner loop never increases the tokens and characters left, and decreases them whenever it appends. It keeps a subline of at most `max_len + 1` characters with its trailing space, appends something to an empty subline when progress is possible, and leaves only fitting tokens when all fit. |
| WordWrap.Lines | scriptit/shape.py:184-201 | The outer loop yields no subline exactly when there are no tokens, and every subline is at most `max_len` long. |
| WordWrap.Wrapped | scriptit/shape.py:178-202 | The wrap of a line is non-empty and every subline fits in `max_len`. |
| WordWrap.LinesStep | scriptit/shape.py:184-201 | One outer pass prepends one subline (the packed text without its trailing character) to the wrap of the tokens left over. |
| WordWrap.WrapFits | scriptit/shape.py:178-179 | A line no longer than `max_len` wraps to itself alone. |
| WordWrap.WrapRoundTrip | scriptit/shape.py:183-198 | When no token is longer than `max_len`, joining the sublines with single spaces gives the line back. |
| WordWrap.WrapPartition | scriptit/shape.py:183-198 | The sublines of such a line are the joins of non-empty, contiguous groups of tokens that together make up the token list. |
| WordWrap.LinesAreGroups | scriptit/shape.py:184-201 | For tokens that all fit, the outer loop yields one subline per token group, each the group joined with spaces, and the groups flatten back to the tokens. |
| WordWrap.GroupsPartition | scriptit/shape.py:184-198 | The token groups are non-empty and together make up the token list. |
| WordWrap.FirstLine | scriptit/shape.py:185-201 | Without oversize tokens, the first subline is the first group of tokens joined with spaces, followed by the wrap of the rest. |
| WordWrap.PackStuck | scriptit/shape.py:186-198 | With `max_len <= 1`, some token that does not fit is still left after the inner loop: it stops at it, or the `cutoff <= 0` break keeps it whole. |
| WordWrap.OuterStuck | scriptit/shape.py:184-201 | Outside `Wrappable`, one outer pass leaves a non-empty token list that is still outside it. |
| WordWrap.StuckPasses | scriptit/shape.py:184-201 | From tokens outside `Wrappable`, the token list is non-empty after any number `k` of outer passes. |
| WordWrap.NeverEnds | scriptit/shape.py:178-201 | For a line outside `Terminates`, the outer loop never ends: after any number of passes tokens remain. |
| WordWrap.WrappedAvoids | scriptit/shape.py:188-199 | Wrapping adds only spaces and `-` markers: any other character missing from the line is missing from every subline. |
| ProgressBar.Bar | scriptit/shape.py:29-36 | The bar starts with `[` and ends with `]`. For `width >= 3` and a fraction in [0, 1] it has exactly `width` characters. |
| ProgressBar.DoneCountRange | scriptit/shape.py:34 | The done count is the floor of `(width - 3) * pct` and lies between 0 and `width - 3`. |
| ProgressBar.BarShape | scriptit/shape.py:34-36 | Position by position, the bar is `[`, `n` done glyphs, the head, `width - 3 - n` undone glyphs and `]`, with `n = floor((width - 3) * pct)`. |
| ProgressBar.BarEmpty | scriptit/shape.py:34-36 | At 0 there is no done glyph. |
| ProgressBar.BarFull | scriptit/shape.py:34-36 | At 1 there is no undone glyph. |
| ProgressBar.DoneCountMonotone | scriptit/shape.py:34 | More progress never draws fewer done glyphs. |
| Box.Content | scriptit/shape.py:55-61 | The content lines are the wraps of the `\n`-separated lines in order, at least one per raw line. |
| Box.FramedLines | scriptit/shape.py:64-66 | There is one framed line per content line. |
| Box.Frame | scriptit/shape.py:63-67 | The box has two lines more than its content. |
| Box.WrapRawLines | scriptit/shape.py:56-62 | The first loop collects exactly the wrapped lines and their maximum length. |
| Box.ContentStep | scriptit/shape.py:59-61 | One pass of the first loop appends the wrap of the next raw line. |
| Box.EmitFrame | scriptit/shape.py:63-67 | The output is the top border, one framed line per content line, and the bottom border. |
| Box.Box | scriptit/shape.py:39-68 | `box` returns the concatenation of `BoxLines`. |
| Box.Border | scriptit/shape.py:63-67 | A border is `longest + 4` copies of the frame character (none when that is negative) and a newline. |
| Box.Framed | scriptit/shape.py:65-66 | A framed line is `max(longest, len(line)) + 5` characters: it opens and closes with the frame, shows the line from position 2 on, and ends in a newline. |
| Box.BoxLines | scriptit/shape.py:54-68 | The box has at least three lines, its last line equals its first, and every line is as long as the first and ends in a newline. |
| Box.FramedShape | scriptit/shape.py:65-66 | A framed line is the frame, a space, the content, space padding up to `longest`, a space and the frame: `longest + 4` characters and a newline. |
| Box.BorderShape | scriptit/shape.py:63-67 | A border is `longest + 4` frame characters and a newline. |
| Box.WideEnough | scriptit/shape.py:58-60 | Every text can be boxed once `width >= 6`. |
| Box.ContentUnwrapped | scriptit/shape.py:59-61 | When no raw line exceeds `width - 4`, the content is the raw lines unchanged. |
| Box.ContentSingleLines | scriptit/shape.py:55-61 | No content line contains a line break. |
| Box.FrameLineAt | scriptit/shape.py:63-67 | Line `k` of the box has `longest + 4` characters and a newline, frames its content when it is not a border, and breaks early only if the frame or content holds a line break. |
| Box.FrameRectangle | scriptit/shape.py:63-67 | The box is a rectangle. Both borders are `char * (longest + 4)`, and every line has `longest + 4` characters before its newline. Each framed line shows its content after the frame and a space, padded with spaces, and no line breaks early. |
| Box.BoxShape | scriptit/shape.py:55-68 | The box of `x` is that rectangle around the wrapped lines of `x`, with `longest <= width - 4`. |
| TableLayout.TotalWidth | scriptit/shape.py:106 | The content width is the sum of the natural widths, plus 3 per column, plus 1. |
| TableLayout.Share | scriptit/shape.py:110-111 | For non-negative widths and a positive total, a column's share is the integer quotient of `w * usable` by `total_width`, plus 3. |
| TableLayout.NaturalWidths | scriptit/shape.py:101-104 | There is one natural width per column. Each is at most the cap `MaxColWidth` (line 101) and at most the column's longest cell, and equals one of the two. |
| TableLayout.ClampWidth | scriptit/shape.py:107 | The table width is never below `min_width`. It is never above `max_width` when `min_width <= max_width`, and it equals the content width when that lies between the bounds. |
| TableLayout.InitialColWidths | scriptit/shape.py:110-112 | Every column but the last gets `int(w / total * usable) + 3`, and the widths add up to exactly `usable`. |
| TableLayout.FirstEmpty | scriptit/shape.py:102-104 | This is the first column with no entries, the one whose `max()` raises. |
| TableLayout.ComputeLayout | scriptit/shape.py:94-112 | The layout succeeds exactly when there is a column, none is empty, and the total width is not 0. On an empty column it fails with that column's index, with no column it fails with `NoColumns`, and with a zero total width it fails with `ZeroTotalWidth`. On success there is one width per column and the widths add up to `table_width - 1`. |
| TableLayout.LayoutWidth | scriptit/shape.py:95-107 | A successful layout has the width `max(min(total_width, max_width), min_width)`, with the resulting bounds. Here `min_width` is the definition `MinWidth` (lines 95-97): `min_width` when given, else `width`, else `2 * len(columns) + 1`. |
| TableLayout.Collapsed | scriptit/shape.py:114 | This lists, in increasing order, columns narrower than 4. |
| TableLayout.CollapsedComplete | scriptit/shape.py:114 | Every column narrower than 4 is collapsed. |
| TableLayout.Donor | scriptit/shape.py:115-118 | `extra[0]`: the narrowest column at least 4 wide, leftmost among equals, or none. |
| TableLayout.Borrowed | scriptit/shape.py:119-123 | Borrowing keeps the number of columns. |
| TableLayout.BorrowedShape | scriptit/shape.py:119-123 | After `k` steps the donor holds its original width minus the last padding, each visited collapsed column holds 2, and every other column is unchanged. |
| TableLayout.CollapseOutcome | scriptit/shape.py:119-124 | After the whole pass every collapsed column holds 2, the donor holds its width minus the last padding, and the rest are unchanged. |
| TableLayout.BorrowChecked | scriptit/shape.py:120 | Passing the check of line 120 for every collapsed column is `CanBorrow`. |
| TableLayout.BorrowLoop | scriptit/shape.py:119-124 | The loop fails with "No extra to borrow from" exactly when some collapsed column has no donor, or a donor not more than 2 wider. Otherwise it returns the borrowed widths. |
| TableLayout.FinalWidths | scriptit/shape.py:114-124 | The widths after the pass keep the number of columns. |
| TableLayout.CollapsePass | scriptit/shape.py:114-124 | The pass fails exactly when some column is collapsed and the donor cannot cover every one. With nothing collapsed it returns the widths unchanged. Otherwise each collapsed column ends at 2, the donor at its width minus the last padding, and the rest unchanged. |
| TableRender.MakeHLine | scriptit/shape.py:205-206 | A rule is the edge, `table_width - 2` rule characters, the edge and a newline. |
| TableRender.Segment | scriptit/shape.py:143-145 | A segment is `max(w, len(val) + 2)` characters and starts with `"| "` and the value. |
| TableRender.CellLine | scriptit/shape.py:140-146 | A cell line ends with `|` and a newline. |
| TableRender.Divider | scriptit/shape.py:148-157 | At most one rule follows a row. None follows row 0 exactly when there is neither header nor row dividers, and none follows a middle row exactly when there are no row dividers. The last row of several is followed by the `+` border. |
| TableRender.BodyCloses | scriptit/shape.py:153-157 | From two rows on, the last line emitted for the rows is the `+` border. |
| TableRender.TableLines | scriptit/shape.py:134-157 | The table starts with the `+` border, and from two rows on it also ends with it. Its rows are the definition `RowBlocks` (lines 135-147): `max(len(col))` rows, each the `RowLines` of that row's entries. |
| TableRender.RowEntries | scriptit/shape.py:137 | There is one entry per column for each row. |
| TableRender.RowLines | scriptit/shape.py:138-147 | A row has as many lines as its tallest cell has sublines. |
| TableRender.BuildLine | scriptit/shape.py:140-146 | The loop over columns builds the cell line: every segment `"| " + val + padding`, then `"|\n"`. |
| TableRender.EmitRow | scriptit/shape.py:138-147 | A row's text is its cell lines in order. |
| TableRender.EmitDivider | scriptit/shape.py:148-157 | After row 0 comes `=` with a header, else `-` with row dividers. Middle rows get `-` only with row dividers. The last row of several gets the `+` border. |
| TableRender.BodyStep | scriptit/shape.py:136-157 | Each pass of the row loop appends one row and its divider. |
| TableRender.Render | scriptit/shape.py:134-157 | The output is the top border followed by every row and the rule after it. |
| TableShape.SegmentShape | scriptit/shape.py:143-145 | A segment of a value that fits is `|`, a space, the value and spaces: exactly the column width. |
| TableShape.ColumnAligned | scriptit/shape.py:140-147 | Every cell line is `Sum(col_widths) + 2` characters. Column `c` starts at the sum of the widths before it and shows `|`, a space, its value and space padding up to its width, and the line ends in `|` and a newline. |
| TableShape.RowCells | scriptit/shape.py:137-142 | A cell shows subline `i` of the entry, or `""` where the column has no such row or the entry has fewer sublines. |
| TableShape.RowHeight | scriptit/shape.py:138 | A row is at least as tall as each of its cells, and at least one line when every entry has a subline. |
| TableShape.RowFits | scriptit/shape.py:140-147 | When the sublines fit their columns, every value shown on a row's line fits its column. |
| TableShape.TableRectangle | scriptit/shape.py:134-157 | When the cells fit and the widths add up to `table_width - 1`, every line the table appends is `table_width + 1` characters with a newline at position `table_width`. |
| TableShape.HLineUnbroken | scriptit/shape.py:205-206 | A rule drawn with characters other than a newline has no line break before its end. |
| TableShape.SegmentsUnbroken | scriptit/shape.py:141-145 | The segments of values without line breaks hold no line break. |
| TableShape.RowUnbroken | scriptit/shape.py:137-147 | When no cell subline holds a line break, no line of a row has one before its end. |
| TableShape.BodyUnbroken | scriptit/shape.py:136-157 | Rows without early line breaks, with their rules, have no early line break. |
| TableShape.TableUnbroken | scriptit/shape.py:134-157 | When no cell subline holds a line break, every line of the table has its only line break at its end. |
| TableShape.BrokenCell | scriptit/shape.py:140-147 | A one-cell table of `"a\nb"` with column width 6 and table width 7: every line has 7 characters before a newline, yet the cell line holds a second line break, at position 3, so the printed table is not a rectangle. |
| TableShape.TableEdges | scriptit/shape.py:134-157 | The table starts with the `+` border. From two rows on it ends with it. Every other line starts with `|`, and a one-row table has no closing border. |
| TableShape.HeaderRuleIff | scriptit/shape.py:148-150 | The `=` rule appears exactly when `header` is set, and then directly after the first row. |
| TableShape.RowRuleIff | scriptit/shape.py:148-155 | The `-` rule with `|` edges appears exactly when `row_dividers` is set and either there is no header or there are at least 3 rows. |
| TableShape.PlainTable | scriptit/shape.py:148-157 | With neither header nor row dividers, the table is the border, every row's lines and, from two rows on, the border again. |
| Table.WrapColumn | scriptit/shape.py:129-132 | There is one wrapped entry per cell. |
| Table.FirstNarrowFrom | scriptit/shape.py:127-130 | This is the first column from `i` on that the wrapping would reject: a non-empty column with `col_widths[i] - 2 <= 1`. |
| Table.WrapAll | scriptit/shape.py:126-132 | There is one wrapped column per column. |
| Table.WrapEntries | scriptit/shape.py:128-132 | The inner loop fails with "Column width collapsed" for column `i` exactly when the column has an entry and its width is at most 3. Otherwise it returns every entry wrapped to `width - 2`. |
| Table.WrapColumnStep | scriptit/shape.py:129-132 | Each pass of the inner loop appends the wrap of the next entry. |
| Table.WrapColumns | scriptit/shape.py:126-132 | Wrapping fails at the first rejected column exactly when there is one. Otherwise it returns every column wrapped. |
| Table.Table | scriptit/shape.py:71-159 | A layout failure is returned as is. After a successful layout, a table comes out exactly when every column is at least 4 wide. The failure is "No extra to borrow from" when the donor cannot cover, and otherwise "Column width collapsed" for a column no later than the first collapsed one. The table is the rendering of the wrapped cells. |
| Table.CollapseRejected | scriptit/shape.py:114-130 | After a successful collapse pass, the wrapping rejects a column exactly when some column was collapsed, no later than the first collapsed one, and nothing is collapsed exactly when every width is at least 4. |
| Table.WrappedFit | scriptit/shape.py:126-135 | Once every column is at least 4 wide, every wrapped subline fits its column and every entry has a subline. The wrapped columns have as many rows as the input (`n_rows`). |
| Table.WrappedUnbroken | scriptit/shape.py:129-132 | Wrapping adds no line break: when no entry holds one, no wrapped subline does. |
| Table.TableOutput | scriptit/shape.py:134-157 | Every line of a successful table is `table_width + 1` characters with a newline at position `table_width`, where `table_width >= 4 * len(columns) + 1`. When no entry holds a line break, that newline is each line's only one, so the table is a rectangle. It starts with the `+` border, and from two rows on it ends with it. The `=` rule appears exactly with `header`, and the `-` row rule appears exactly with `row_dividers` and either no header or at least 3 rows. |

## Left out

- Terminal-size defaults (`shutil.get_terminal_size`, lines 33, 53, 95): these are I/O, so `width` of `progress_bar` and `box` and `max_width` of `table` are required parameters.
- ANSI colour stripping (`decolorize`, line 163): `scriptit/color.py` is not part of this model, so printed length is plain length.
- Floating point: `int((width - 3) * complete_pct)` and `float(w) / float(total_width)` are computed on exact reals with truncation toward zero. Binary rounding at the boundaries is not modelled.
- `str(...)` of arbitrary values (lines 54, 99): inputs are strings already.
- Exception kinds: the glyph assertions of `progress_bar` (lines 29-31) are a precondition of `ProgressBar.Bar`. The failures of `table` are `Result` values, not exceptions.
- Non-terminating inputs of `_word_wrap_to_len` (`max_len <= 1` with an oversize token): `WordWrap.WordWrapToLen` and `Box.Box` require `Terminates`/`Renderable`, the inputs on which the source returns. `WordWrap.NeverEnds` proves that the loop runs forever outside them.
- Box.Box: the frame character is a single `char`. A multi-character `char` argument, which the source accepts and repeats, is not modelled.
- TableRender.MakeHLine: the rule and edge characters are single `char`s, as every call site passes.
- TableRender.Render: it takes the number of rows from the wrapped columns rather than from `columns` (line 135). `Table.WrappedFit` proves the two are equal.
- Table.WrapColumns: it builds each column's list before appending it, instead of appending to `wrapped_cols[-1]` in place. The result is the same.
- Table.TableOutput: the table is a printed rectangle only when no entry holds a line break. Entries are not split on `"\n"`, so, as in the source, an entry holding one breaks its cell line in two (`TableShape.BrokenCell`).
- Table.Table: `n_rows = max(...)` on line 135 cannot fail here, because the layout has already rejected an empty `columns`.
