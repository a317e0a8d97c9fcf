/**
 * The ellipse editor's textual side: an ellipse record, its one-line text
 * form, the validator and parser of the text pane, and the two "send"
 * transitions that copy the list of ellipses between the panes.
 */
module EllipseText {
  import opened Wrappers
  import opened PyText

  /** An ellipse centred at (x0, y0) with half-axes `width` and `height`. */
  datatype Ellipse = Ellipse(
    x0: int,
    y0: int,
    width: int,
    height: int,
    color: string,
    borderWidth: int,
    borderColor: string)

  /** The constructor with every optional argument at its default. */
  function NewEllipse(x0: int, y0: int): (e: Ellipse)
    ensures e.x0 == x0 && e.y0 == y0
    ensures e.width == 0 && e.height == 0 && e.borderWidth == 0
    ensures e.color == "#000" && e.borderColor == "#000"
    ensures WellFormed(e)
  {
    Ellipse(x0, y0, 0, 0, "#000", 0, "#000")
  }

  /**
   * The ellipses the text pane accepts: sizes and border non-negative and
   * both colours `#rgb` codes.
   */
  predicate WellFormed(e: Ellipse) {
    && e.width >= 0 && e.height >= 0 && e.borderWidth >= 0
    && IsColorCode(e.color) && IsColorCode(e.borderColor)
  }

  /** Dragging a new ellipse's corner to (x, y): the half-axes become the distances from the centre. */
  function Resize(e: Ellipse, x: int, y: int): (r: Ellipse)
    ensures r.width >= 0 && r.height >= 0
    ensures r.x0 + r.width == x || r.x0 - r.width == x
    ensures r.y0 + r.height == y || r.y0 - r.height == y
    ensures r.(width := e.width, height := e.height) == e
  {
    e.(width := Abs(x - e.x0), height := Abs(y - e.y0))
  }

  /** Dragging an ellipse to (x, y): the centre moves, nothing else changes. */
  function Move(e: Ellipse, x: int, y: int): (r: Ellipse)
    ensures r.x0 == x && r.y0 == y
    ensures r.(x0 := e.x0, y0 := e.y0) == e
  {
    e.(x0 := x, y0 := y)
  }

  /** Resizing and moving keep an ellipse well formed. */
  lemma EditsKeepWellFormed(e: Ellipse, x: int, y: int)
    requires WellFormed(e)
    ensures WellFormed(Resize(e, x, y)) && WellFormed(Move(e, x, y))
  {
  }

  // ---------------------------------------------------------------------
  // One ellipse per line
  // ---------------------------------------------------------------------

  /** The seven fields of an ellipse's line, in order. */
  function Fields(e: Ellipse): (f: seq<string>)
    ensures |f| == 7
  {
    [IntToString(e.x0), IntToString(e.y0), IntToString(e.width), IntToString(e.height),
     e.color, IntToString(e.borderWidth), e.borderColor]
  }

  /** `str(ellipse)`: the seven fields separated by single spaces. */
  function Format(e: Ellipse): (line: string)
    ensures |line| > 0
    ensures WellFormed(e) ==> Split(line, ' ') == Fields(e)
  {
    FieldsSplitBack(e);
    Join(Fields(e), ' ')
  }

  lemma FieldsSplitBack(e: Ellipse)
    ensures WellFormed(e) ==> Split(Join(Fields(e), ' '), ' ') == Fields(e)
  {
    if WellFormed(e) {
      FieldsHaveNoSeparators(e);
      SplitJoin(Fields(e), ' ');
    }
  }

  /** A field that `int` accepts and that is not negative. */
  predicate IsSize(field: string) {
    ParseInt(field).Some? && ParseInt(field).value >= 0
  }

  /**
   * The check `correct_text` makes of one stripped, non-blank line: seven
   * space-separated fields, the first two integers, the third, fourth and
   * sixth non-negative integers, the fifth and seventh colours.
   */
  function AcceptLine(line: string): (ok: bool)
    ensures ok ==> ParseLine(line).Some?
    ensures ok ==> var e := ParseLine(line).value;
      e.width >= 0 && e.height >= 0 && e.borderWidth >= 0
  {
    var p := Split(line, ' ');
    && |p| == 7
    && ParseInt(p[0]).Some? && ParseInt(p[1]).Some?
    && IsSize(p[2]) && IsSize(p[3])
    && ColorMatches(p[4])
    && IsSize(p[5])
    && ColorMatches(p[6])
  }

  /**
   * What `convert_text` makes of one line: the fields taken by position,
   * or `None` where Python would raise (not seven fields, or an integer
   * field `int` rejects). Sizes and colours are not checked here.
   */
  function ParseLine(line: string): (r: Option<Ellipse>)
    ensures var p := Split(line, ' ');
      r.Some? ==>
        && |p| == 7
        && ParseInt(p[0]) == Some(r.value.x0) && ParseInt(p[1]) == Some(r.value.y0)
        && ParseInt(p[2]) == Some(r.value.width) && ParseInt(p[3]) == Some(r.value.height)
        && r.value.color == p[4]
        && ParseInt(p[5]) == Some(r.value.borderWidth)
        && r.value.borderColor == p[6]
    ensures var p := Split(line, ' ');
      r.None? ==>
        || |p| != 7
        || exists i :: i in {0, 1, 2, 3, 5} && ParseInt(p[i]).None?
  {
    var p := Split(line, ' ');
    if |p| == 7 && ParseInt(p[0]).Some? && ParseInt(p[1]).Some? && ParseInt(p[2]).Some?
       && ParseInt(p[3]).Some? && ParseInt(p[5]).Some?
    then
      Some(Ellipse(ParseInt(p[0]).value, ParseInt(p[1]).value, ParseInt(p[2]).value,
                   ParseInt(p[3]).value, p[4], ParseInt(p[5]).value, p[6]))
    else
      None
  }

  /** The line of a colour or integer field contains neither a space nor a newline. */
  lemma FieldsHaveNoSeparators(e: Ellipse)
    requires WellFormed(e)
    ensures forall i :: 0 <= i < 7 ==> ' ' !in Fields(e)[i] && '\n' !in Fields(e)[i]
  {
    ColorCodeShape(e.color);
    ColorCodeShape(e.borderColor);
  }

  /**
   * The round trip that keeps the panes in sync: the line printed for a
   * well-formed ellipse passes the validator and parses back to the same
   * ellipse.
   */
  lemma FormatRoundTrip(e: Ellipse)
    requires WellFormed(e)
    ensures AcceptLine(Format(e))
    ensures ParseLine(Format(e)) == Some(e)
  {
    assert Split(Format(e), ' ') == Fields(e);
    var p := Split(Format(e), ' ');
    assert p[0] == IntToString(e.x0) && p[1] == IntToString(e.y0);
    assert p[2] == IntToString(e.width) && p[3] == IntToString(e.height);
    assert p[4] == e.color && p[5] == IntToString(e.borderWidth) && p[6] == e.borderColor;
    ParseIntToString(e.x0);
    ParseIntToString(e.y0);
    ParseIntToString(e.width);
    ParseIntToString(e.height);
    ParseIntToString(e.borderWidth);
    assert ParseInt(p[0]) == Some(e.x0) && ParseInt(p[1]) == Some(e.y0);
    assert ParseInt(p[2]) == Some(e.width) && ParseInt(p[3]) == Some(e.height);
    assert ParseInt(p[5]) == Some(e.borderWidth);
    assert ColorMatches(p[4]) && ColorMatches(p[6]);
    assert ParseLine(Format(e)) == Some(e);
  }

  /** A line without newlines is accepted exactly when it parses to a well-formed ellipse. */
  lemma AcceptLineIffWellFormed(line: string)
    requires '\n' !in line
    ensures AcceptLine(line) <==> ParseLine(line).Some? && WellFormed(ParseLine(line).value)
  {
    var p := Split(line, ' ');
    if |p| == 7 {
      JoinSplit(line, ' ');
      NoNewlineInPieces(p, ' ', 4);
      NoNewlineInPieces(p, ' ', 6);
    }
  }

  /** A piece of a joined string only holds characters the string holds. */
  lemma {:induction false} NoNewlineInPieces(parts: seq<string>, c: char, k: nat)
    requires k < |parts| && '\n' != c
    requires '\n' !in Join(parts, c)
    ensures '\n' !in parts[k]
  {
    if |parts| > 1 {
      assert Join(parts, c) == parts[0] + [c] + Join(parts[1..], c);
      if k > 0 {
        NoNewlineInPieces(parts[1..], c, k - 1);
      }
    }
  }
}
