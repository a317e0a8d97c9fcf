# Three small state machines from a GUI exercise collection

This project models, in Dafny, the pure logic inside three Tk exercises:

- **The game of fifteen** (`03_ThreeWayAndTkinter/fifteen.py`): a 4x4 board
  `state[x][y]` of the tiles 0..15, with 0 as the empty square, built from a
  permutation of 0..15, and `hit(x, y)`, which slides the clicked tile into
  the first empty neighbour in the fixed order x-1, x+1, y-1, y+1.
  Module `Fifteen`.
- **The ellipse editor's text format** (`05_SshAndSmartWidgents/main.py`): an
  ellipse record, its seven-field line `x0 y0 width height color
  border_width border_color`, the validator `correct_text`, the parser
  `convert_text`, and the two buttons that copy the list between the text
  pane and the drawing pane. Modules `PyText` (the Python string functions
  the format relies on), `EllipseText` (one ellipse, one line) and
  `EllipsePanes` (whole widget contents, the two panes).
- **The label editor** (`04_PublicRepositoryEvents/LabelEdit.py`): a text and
  a cursor offset in pixels, each character 7 pixels wide; backspace, key
  input, click and the Left/Right/Home/End keys. Module `LabelEdit`.

Every state is an immutable value and every handler a function from the old
state to the new one. Module `Wrappers` holds `Option` and `Result`; a
Python exception becomes `None` or `Err`.

The main results:

- `Fifteen.Hit` is an error off the board. It changes nothing on the empty
  square or when no neighbour is empty. Otherwise it moves the tile into the
  first empty neighbour and leaves every other square alone.
  `Fifteen.HitLoop` is the Python loop with its `break`, proved to compute
  `Hit`. `Fifteen.HitPreservesValid` and `Fifteen.PlayKeepsValid` show that
  the board stays a permutation of 0..15.
- `EllipseText.FormatRoundTrip`: the printed line of a well-formed ellipse
  passes the validator and parses back to the same ellipse.
  `EllipsePanes.SyncRoundTrip` lifts this to whole lists: "Send to text"
  followed by "Send to editor" hands the drawing pane back the list it sent.
- `LabelEdit.RunKeepsInv`: every event keeps the cursor on a character
  boundary between the start and the end of the text.
  `LabelEdit.BackspaceUndoesInput` shows that backspace undoes typing one
  character.

Modelling choices:

- **Board indices.** The board is indexed `state[x][y]` as in the source.
  The first index is the column of the button grid.
- **Random shuffle.** The constructor's shuffled list is a parameter.
- **Widget width.** The label's width (`winfo_width`) is a parameter of the
  events that read it.
- **Integer parsing.** `int(field)` is modelled as: skip surrounding
  whitespace, then an optional `+` or `-` and one or more ASCII digits
  (`PyText.ParseInt`). The whitespace `int` skips (`PyText.IntSpace`) is
  narrower than what `str.strip()` removes. The ASCII separator controls
  U+001C..U+001F are whitespace to `strip`, but `int` does not skip them, so
  `int('1\x1c')` raises (`PyText.IntKeepsSeparatorControls`).
- **Colour pattern.** `color_re` is `re.match` with `^#[0-9a-f]{3}$`. Python's
  `$` also matches before one final newline, and `PyText.ColorMatches` keeps
  that. The lines are split on newlines, so no field ever contains one, and
  for such a field the match is exactly a colour code.
- **Tk text widget.** `Text.get(1.0, END)` returns the contents plus the
  final newline Tk always adds (`EllipsePanes.TkGet`).
- **The rewrite by `correct_text`.** `correct_text` rewrites the widget with
  the stripped, non-blank lines before `convert_text` reads it again.
  `EllipsePanes.RewriteKeepsLines` proves that the rewrite does not change
  what `convert_text` sees.
- **Line loops.** `EllipsePanes.CheckLines` and `EllipsePanes.ConvertLines`
  are the two line loops. They take the per-line check or parse as a
  function argument. `CorrectText` passes `AcceptLine` and `ConvertText`
  passes `ParseLine`, so the loop proofs do not depend on the parser's
  details.
- **Label invariant.** The label handlers need no precondition. Python
  slicing is modelled with negative and out-of-range bounds
  (`LabelEdit.Prefix`, `LabelEdit.Suffix`). Their exact results are stated
  for labels that satisfy the invariant `LabelEdit.Inv`, which every label
  reachable from the empty one does.
- **Floor division.** Dafny's `/` and `%` with the positive divisor 7 agree
  with Python's `//` and `%` for negative operands too. So a click at a
  negative x is modelled as written. It is the only event that can break
  the invariant.

## Model

| member | source | states |
|---|---|---|
| `Fifteen.Neighbors` | 03_ThreeWayAndTkinter/fifteen.py:5-7 | the result holds exactly the candidates (x-1,y), (x+1,y), (x,y-1), (x,y+1) that lie in [0,3]², in that candidate order |
| `Fifteen.NeighborsAreAdjacentSquares` | 03_ThreeWayAndTkinter/fifteen.py:5-7 | a square is a neighbour exactly when it is on the board at Manhattan distance 1 |
| `Fifteen.NeighborsOfCorner` | 03_ThreeWayAndTkinter/test_fifteen.py:9-13 | a corner has exactly two neighbours, first the one along x and then the one along y, as the test lists them for all four corners |
| `Fifteen.NeighborsOfInnerSquare` | 03_ThreeWayAndTkinter/test_fifteen.py:14 | any of the four inner squares, (2,2) among them, has all four candidates as neighbours, in the order the test lists them |
| `Fifteen.FromNumbers` | 03_ThreeWayAndTkinter/fifteen.py:20-23 | the constructed board is 4x4 with `state[x][y] = numbers[x*4+y]` |
| `Fifteen.FlattenFromNumbers` | 03_ThreeWayAndTkinter/fifteen.py:20-23 | reading the built board in x-major order gives back the list it was built from |
| `Fifteen.FromNumbersFlatten` | 03_ThreeWayAndTkinter/fifteen.py:20-23 | building from a board's x-major reading gives the board back, so construction is a bijection between lists of 16 and boards |
| `Fifteen.RangeCounts` | 03_ThreeWayAndTkinter/fifteen.py:17 | `range(n)` holds every number below n exactly once and nothing else |
| `Fifteen.FromNumbersValid` | 03_ThreeWayAndTkinter/fifteen.py:17-23 | the built board holds a permutation of 0..15 exactly when the list was one |
| `Fifteen.ValidTilesOnce` | 03_ThreeWayAndTkinter/test_fifteen.py:17-24 | on a valid board every value 0..15 (so the empty square too) occurs exactly once and no other value occurs |
| `Fifteen.Hit` | 03_ThreeWayAndTkinter/fifteen.py:25-37 | error with the coordinates iff x or y is outside [0,3]; no change on the empty square or when no neighbour is empty; otherwise the tile moves into the first empty neighbour, the source becomes 0, all other squares unchanged |
| `Fifteen.HitLoop` | 03_ThreeWayAndTkinter/fifteen.py:27-37 | the loop over the neighbours that stops at the first empty one computes exactly `Hit` |
| `Fifteen.HitAtMostOneSwap` | 03_ThreeWayAndTkinter/fifteen.py:33-37 | an in-bounds hit changes no square besides the clicked one and one other |
| `Fifteen.SwapKeepsMultiset` | 03_ThreeWayAndTkinter/fifteen.py:35-36 | exchanging two entries keeps the multiset of values |
| `Fifteen.SlideKeepsMultiset` | 03_ThreeWayAndTkinter/fifteen.py:35-36 | moving a tile into an empty square and emptying its old square keeps the multiset of values on the board |
| `Fifteen.HitPreservesValid` | 03_ThreeWayAndTkinter/fifteen.py:34-36 | a hit on a board holding a permutation of 0..15 yields a board holding a permutation of 0..15 |
| `Fifteen.PlayKeepsValid` | 03_ThreeWayAndTkinter/fifteen.py:25-37 | any sequence of in-bounds hits keeps the permutation invariant |
| `Fifteen.HitScenarioOffBoard` | 03_ThreeWayAndTkinter/test_fifteen.py:41-49 | hits at (-1,2), (2,-1), (5,2), (2,5) are errors |
| `Fifteen.HitScenarioNoMove` | 03_ThreeWayAndTkinter/test_fifteen.py:51-59 | on the test board, hits at (0,0) and at the empty (2,2) change nothing |
| `Fifteen.HitScenarioSlide` | 03_ThreeWayAndTkinter/test_fifteen.py:61-66 | on the test board, a hit at (1,2) empties (1,2) and moves its tile to (2,2) |
| `PyText.Strip` | 05_SshAndSmartWidgents/main.py:117 | the result is the infix of the line after its leading whitespace, followed only by whitespace, and starting and ending with a non-space |
| `PyText.StripIdempotent` | 05_SshAndSmartWidgents/main.py:145 | stripping an already stripped line changes nothing |
| `PyText.Split` | 05_SshAndSmartWidgents/main.py:120 | splitting yields at least one piece and no piece contains the separator |
| `PyText.SplitJoin` | 05_SshAndSmartWidgents/main.py:38 | splitting a joined non-empty list of separator-free pieces gives the pieces back |
| `PyText.JoinSplit` | 05_SshAndSmartWidgents/main.py:120 | joining the pieces of a split restores the string |
| `PyText.NatToStringValue` | 05_SshAndSmartWidgents/main.py:38 | the decimal digits printed for n denote n |
| `PyText.IntStripIsStrip` | 05_SshAndSmartWidgents/main.py:117 | on a string without U+001C..U+001F, the whitespace `int` skips is exactly what `strip` removes |
| `PyText.IntKeepsSeparatorControls` | 05_SshAndSmartWidgents/main.py:117 | `'1\x1c'.strip()` is `'1'`, yet `int('1\x1c')` raises |
| `PyText.ParseInt` | 05_SshAndSmartWidgents/main.py:126-131 | `int` succeeds exactly when the field, without the whitespace `int` skips at its ends, is an optional sign and at least one ASCII digit |
| `PyText.ParseNonNegative` | 05_SshAndSmartWidgents/main.py:38 | `int` reads the decimal digits of a natural number back as that number |
| `PyText.ParseNegative` | 05_SshAndSmartWidgents/main.py:38 | `int` reads a minus sign followed by the digits of a positive n back as -n |
| `PyText.ParseIntToString` | 05_SshAndSmartWidgents/main.py:38 | `int(str(n)) == n` for every integer, with no limit on the number of digits (see "Left out") |
| `PyText.ColorMatches` | 05_SshAndSmartWidgents/main.py:5 | for a field without newline, `color_re` matches exactly the `#rgb` lower-case hex codes; any match starts with such a code |
| `EllipseText.NewEllipse` | 05_SshAndSmartWidgents/main.py:17-24 | the ellipse at a point has that centre, sizes and border 0 and both colours `#000`, the constructor's defaults, and is well formed |
| `EllipseText.Resize` | 05_SshAndSmartWidgents/main.py:26-28 | the half-axes become non-negative distances from the centre to the point; every other field unchanged |
| `EllipseText.Move` | 05_SshAndSmartWidgents/main.py:30-32 | the centre becomes the point; every other field unchanged |
| `EllipseText.EditsKeepWellFormed` | 05_SshAndSmartWidgents/main.py:26-32 | resizing and moving keep an ellipse well formed |
| `EllipseText.FieldsHaveNoSeparators` | 05_SshAndSmartWidgents/main.py:37-38 | none of the seven printed fields of a well-formed ellipse contains a space or a newline |
| `EllipseText.Format` | 05_SshAndSmartWidgents/main.py:37-38 | the line is non-empty, and for a well-formed ellipse it splits on spaces into exactly its seven fields in order x0 y0 width height color border_width border_color |
| `EllipseText.AcceptLine` | 05_SshAndSmartWidgents/main.py:120-137 | a line the per-line check accepts is one the parser of main.py:148-149 converts, with non-negative sizes and border |
| `EllipseText.ParseLine` | 05_SshAndSmartWidgents/main.py:148-149 | a parsed ellipse takes each field by position from a seven-field line; parsing fails only for a wrong field count or an integer field `int` rejects |
| `EllipseText.FormatRoundTrip` | 05_SshAndSmartWidgents/main.py:37-38 | the printed line of a well-formed ellipse is accepted by the validator and parses back to the same ellipse |
| `EllipseText.AcceptLineIffWellFormed` | 05_SshAndSmartWidgents/main.py:120-137 | a newline-free line is accepted exactly when it parses to an ellipse with non-negative sizes and border and valid colours |
| `EllipsePanes.CheckLines` | 05_SshAndSmartWidgents/main.py:116-139 | the rewritten lines are the stripped non-blank lines in order, each tagged iff rejected, and the verdict is true iff none was rejected |
| `EllipsePanes.CorrectText` | 05_SshAndSmartWidgents/main.py:112-139 | the validator returns true iff every stripped non-blank line of the widget is accepted |
| `EllipsePanes.RewriteKeepsLines` | 05_SshAndSmartWidgents/main.py:114-137 | reading the widget after the validator's rewrite yields the same stripped non-blank lines as before it |
| `EllipsePanes.ConvertLines` | 05_SshAndSmartWidgents/main.py:144-150 | the loop yields one parsed item per non-blank line in input order, and fails iff some non-blank line fails to parse |
| `EllipsePanes.ConvertText` | 05_SshAndSmartWidgents/main.py:141-150 | the parser yields one ellipse per non-blank line in order, each the `ParseLine` of that line |
| `EllipsePanes.CorrectTextConverts` | 05_SshAndSmartWidgents/main.py:158-159 | text that passes the validator converts without error into well-formed ellipses |
| `EllipsePanes.SendToEditor` | 05_SshAndSmartWidgents/main.py:156-164 | the text pane's list is replaced by the parsed text only when validation passes, else kept; the drawing pane receives the text pane's list |
| `EllipsePanes.SendToText` | 05_SshAndSmartWidgents/main.py:54-60 | the text pane receives the drawing pane's list |
| `EllipsePanes.Draw` | 05_SshAndSmartWidgents/main.py:152-154 | a non-empty list of well-formed ellipses is drawn as its printed lines joined by newlines, so splitting the drawing on newlines gives one printed ellipse per line, in order |
| `EllipsePanes.DrawnLines` | 05_SshAndSmartWidgents/main.py:152-154 | the non-blank lines of the drawn text are the printed ellipses, one per line, in order |
| `EllipsePanes.SyncRoundTrip` | 05_SshAndSmartWidgents/main.py:152-162 | after "Send to text" with well-formed ellipses, the text validates and "Send to editor" hands back the same list |
| `LabelEdit.Left` | 04_PublicRepositoryEvents/LabelEdit.py:64-65 | the cursor moves 7 left only when it stays at or right of 0, otherwise nothing changes; the text is unchanged |
| `LabelEdit.Right` | 04_PublicRepositoryEvents/LabelEdit.py:66-68 | the cursor moves 7 right iff it is before the text's end and the widget is wider than the new position, else stays; the text is unchanged |
| `LabelEdit.Home` | 04_PublicRepositoryEvents/LabelEdit.py:69 | the cursor goes to 0 and the invariant holds afterwards; the text is unchanged |
| `LabelEdit.End` | 04_PublicRepositoryEvents/LabelEdit.py:70 | the cursor goes to the text's end and the invariant holds afterwards; the text is unchanged |
| `LabelEdit.LeftUndoesRight` | 04_PublicRepositoryEvents/LabelEdit.py:64-68 | a Right step that moved the cursor is undone by Left |
| `LabelEdit.Backspace` | 04_PublicRepositoryEvents/LabelEdit.py:39-43 | at index p > 0 the character before the cursor is removed (text one shorter, prefix and suffix intact) and the cursor moves 7 left; at index 0 nothing changes |
| `LabelEdit.Input` | 04_PublicRepositoryEvents/LabelEdit.py:45-50 | a non-empty key string is inserted at the cursor index with prefix and suffix intact, and the cursor advances 7 iff the widget is wide enough; an empty one changes nothing |
| `LabelEdit.Click` | 04_PublicRepositoryEvents/LabelEdit.py:52-53 | the cursor becomes the greatest multiple of 7 not right of the click, capped at the text's end; non-negative for a click at x >= 0 |
| `LabelEdit.BackspaceUndoesInput` | 04_PublicRepositoryEvents/LabelEdit.py:39-50 | typing one character where the cursor can advance and then backspacing restores the label |
| `LabelEdit.StepKeepsInv` | 04_PublicRepositoryEvents/LabelEdit.py:39-70 | every handler keeps the cursor a multiple of 7 within [0, 7·|text|] |
| `LabelEdit.RunKeepsInv` | 04_PublicRepositoryEvents/LabelEdit.py:21-29 | any sequence of bound events keeps the invariant |
| `LabelEdit.ReachableLabelsKeepInv` | 04_PublicRepositoryEvents/LabelEdit.py:11-19 | every label reachable from the empty label at cursor 0 satisfies the invariant |

## Left out

- `Fifteen.won` and `Fifteen.reset`: `03_ThreeWayAndTkinter/main.py` calls them, but `fifteen.py` does not define them. Their behaviour cannot be cited.
- `random.shuffle` in the constructor: the permutation is a parameter of `Fifteen.FromNumbers`.
- Solvability: like the source, the model does not restrict the board to even permutations.
- `number_to_piece` and all Tk plumbing: frames, layout, `bind`, `event_generate`, focus, `draw` on the canvas, message boxes, `print` and `mainloop`. None of it is logic.
- `Ellipse.contains`, and with it the drawing pane's press, motion and release handlers. `contains` divides by the squared width and height, so it raises on an ellipse of zero size.
- `PyText.ParseInt`: does not accept `_` between digits or non-ASCII decimal digits, both of which Python's `int` accepts. A field using them is rejected in the model but accepted in Python.
- `PyText.ParseInt`: has no limit on the number of digits. Python 3.11, and the security releases 3.7.14 to 3.10.7, raise `ValueError` by default for more than 4300 digits (`sys.set_int_max_str_digits`). On those versions `correct_text` rejects such a field, while the model accepts it. The limit depends on the interpreter version and a runtime setting, so the model follows the unlimited `int` of the versions before it.
- `PyText.ParseIntToString`: holds for every integer only without that digit limit. Under the limit, `str(n)` in `Ellipse.__str__` itself raises for an `n` of more than 4300 digits, and the round trip holds only below that size.
- `EllipseText.AcceptLine`: assumes Python runs without `-O`. Under `-O` the `assert` checks of `correct_text` are removed.
- Object identity: `Text.send_to` and `Editor.send_to` copy the list but share the `Ellipse` objects. A later drag in the drawing pane therefore also changes the text pane's stored ellipses. The model has value semantics and does not show this aliasing.
- `EllipsePanes.SendToText`: its contract states only the copied list. What the text pane then shows is stated by `EllipsePanes.DrawnLines` and `EllipsePanes.SyncRoundTrip`.
- Tk event dispatch: which binding fires for which key is not modelled. Backspace, key input and the cursor keys are separate events of `LabelEdit.Step`.
- `Cursor.x()` is not modelled separately: the cursor offset is the label's `cursor` field.
- `LabelEdit.Input`: `self.update()` before the Right step is modelled only through the widget width the event carries.
