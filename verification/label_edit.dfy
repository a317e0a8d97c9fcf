/**
 * The one-line text label with a cursor: the label's text and the cursor's
 * horizontal offset in pixels. Every character is `CharWidth` pixels wide,
 * so the cursor stands before character `cursor / CharWidth`.
 */
module LabelEdit {

  /** The width of one character of the fixed-width font, in pixels. */
  const CharWidth: int := 7

  /** The label's text and the cursor's x offset in pixels. */
  datatype Label = Label(text: string, cursor: int)

  /** The empty label with the cursor at the left edge. */
  const Initial: Label := Label("", 0)

  /** The offset of the text's end. */
  function EndOffset(text: string): nat {
    |text| * CharWidth
  }

  /** The cursor sits on a character boundary within the text. */
  predicate Inv(l: Label) {
    0 <= l.cursor <= EndOffset(l.text) && l.cursor % CharWidth == 0
  }

  /** The character index the cursor stands before: Python's `x // 7`. */
  function Index(l: Label): int {
    l.cursor / CharWidth
  }

  // ---------------------------------------------------------------------
  // Python slicing
  // ---------------------------------------------------------------------

  /** Where Python's slice bound `k` lands in `s`: negative bounds count from the end, then clamp. */
  function SliceBound(s: string, k: int): (b: nat)
    ensures b <= |s|
    ensures 0 <= k <= |s| ==> b == k
  {
    if k < 0 then (if k + |s| < 0 then 0 else k + |s|)
    else if k > |s| then |s| else k
  }

  /** Python's `s[:k]`. */
  function Prefix(s: string, k: int): string {
    s[..SliceBound(s, k)]
  }

  /** Python's `s[k:]`. */
  function Suffix(s: string, k: int): string {
    s[SliceBound(s, k)..]
  }

  // ---------------------------------------------------------------------
  // Cursor keys
  // ---------------------------------------------------------------------

  /** Left: one character left, unless that would pass the left edge. */
  function Left(l: Label): (r: Label)
    ensures r.text == l.text
    ensures l.cursor >= CharWidth ==> r.cursor == l.cursor - CharWidth
    ensures l.cursor < CharWidth ==> r == l
  {
    if l.cursor - CharWidth >= 0 then l.(cursor := l.cursor - CharWidth) else l
  }

  /**
   * Right: one character right, only while the cursor is before the
   * text's end and the next position still lies inside the widget, whose
   * current width in pixels is `widgetWidth`.
   */
  function Right(l: Label, widgetWidth: int): (r: Label)
    ensures r.text == l.text
    ensures r.cursor == l.cursor || r.cursor == l.cursor + CharWidth
    ensures r.cursor != l.cursor <==> l.cursor < EndOffset(l.text) && l.cursor + CharWidth < widgetWidth
  {
    if l.cursor < EndOffset(l.text) then
      if widgetWidth > l.cursor + CharWidth then l.(cursor := l.cursor + CharWidth) else l
    else l
  }

  /** Home: the cursor goes to the text's start. */
  function Home(l: Label): (r: Label)
    ensures r.text == l.text && r.cursor == 0
    ensures Inv(r)
  {
    l.(cursor := 0)
  }

  /** End: the cursor goes past the text's last character. */
  function End(l: Label): (r: Label)
    ensures r.text == l.text && r.cursor == EndOffset(l.text)
    ensures Inv(r)
  {
    l.(cursor := EndOffset(l.text))
  }

  /** A step right that happened is undone by a step left. */
  lemma LeftUndoesRight(l: Label, widgetWidth: int)
    requires l.cursor >= 0 && Right(l, widgetWidth) != l
    ensures Left(Right(l, widgetWidth)) == l
  {
  }

  // ---------------------------------------------------------------------
  // Editing
  // ---------------------------------------------------------------------

  /** Backspace: remove the character before the cursor, then move the cursor left. */
  function Backspace(l: Label): (r: Label)
    ensures Index(l) <= 0 ==> r == l
    ensures Inv(l) && Index(l) > 0 ==>
              && |r.text| == |l.text| - 1
              && r.text == l.text[..Index(l) - 1] + l.text[Index(l)..]
              && r.cursor == l.cursor - CharWidth
  {
    var p := Index(l);
    if p > 0 then Left(Label(Prefix(l.text, p - 1) + Suffix(l.text, p), l.cursor))
    else l
  }

  /**
   * A key press carrying the characters `ch`: insert them at the cursor,
   * then move right as the Right key does (the widget may be too narrow).
   * A key press without characters changes nothing.
   */
  function Input(l: Label, ch: string, widgetWidth: int): (r: Label)
    ensures ch == "" ==> r == l
    ensures Inv(l) && ch != "" ==>
              && r.text == l.text[..Index(l)] + ch + l.text[Index(l)..]
              && (r.cursor == l.cursor + CharWidth <==> l.cursor + CharWidth < widgetWidth)
              && (r.cursor == l.cursor || r.cursor == l.cursor + CharWidth)
  {
    if ch != "" then
      var p := Index(l);
      Right(Label(Prefix(l.text, p) + ch + Suffix(l.text, p), l.cursor), widgetWidth)
    else l
  }

  /**
   * A click at pixel `ax`: the cursor snaps to the character boundary at
   * or left of the click, but no further right than the text's end.
   */
  function Click(l: Label, ax: int): (r: Label)
    ensures r.text == l.text
    ensures r.cursor % CharWidth == 0
    ensures r.cursor <= ax && r.cursor <= EndOffset(l.text)
    ensures r.cursor == EndOffset(l.text) || ax < r.cursor + CharWidth
    ensures ax >= 0 ==> r.cursor >= 0
  {
    var snapped := ax - ax % CharWidth;
    l.(cursor := if snapped < EndOffset(l.text) then snapped else EndOffset(l.text))
  }

  /** Typing one character where the cursor can advance, then backspacing, restores the label. */
  lemma BackspaceUndoesInput(l: Label, c: char, widgetWidth: int)
    requires Inv(l)
    requires l.cursor + CharWidth < widgetWidth
    ensures Backspace(Input(l, [c], widgetWidth)) == l
  {
    var p := Index(l);
    var m := Input(l, [c], widgetWidth);
    assert m.cursor == l.cursor + CharWidth;
    assert Index(m) == p + 1;
    assert m.text[..p] + m.text[p + 1..] == l.text;
  }

  // ---------------------------------------------------------------------
  // The invariant
  // ---------------------------------------------------------------------

  /** The label's events, with the widget width each one sees where it matters. */
  datatype Event =
    | BackspaceKey
    | KeyPress(ch: string, widgetWidth: int)
    | MouseClick(ax: int)
    | LeftKey
    | RightKey(widgetWidth: int)
    | HomeKey
    | EndKey

  function Step(l: Label, e: Event): Label {
    match e
    case BackspaceKey => Backspace(l)
    case KeyPress(ch, w) => Input(l, ch, w)
    case MouseClick(ax) => Click(l, ax)
    case LeftKey => Left(l)
    case RightKey(w) => Right(l, w)
    case HomeKey => Home(l)
    case EndKey => End(l)
  }

  /** Clicks land inside the widget, at a non-negative x. */
  predicate OnWidget(e: Event) {
    e.MouseClick? ==> e.ax >= 0
  }

  /** Every event keeps the cursor on a character boundary within the text. */
  lemma StepKeepsInv(l: Label, e: Event)
    requires Inv(l) && OnWidget(e)
    ensures Inv(Step(l, e))
  {
    match e
    case BackspaceKey =>
      if Index(l) > 0 {
        assert l.cursor >= CharWidth;
      }
    case KeyPress(ch, w) =>
      if ch != "" {
        assert |Input(l, ch, w).text| == |l.text| + |ch|;
      }
    case _ =>
  }

  /** The label after a sequence of events. */
  function Run(l: Label, events: seq<Event>): Label
    decreases |events|
  {
    if |events| == 0 then l else Run(Step(l, events[0]), events[1..])
  }

  /** Any sequence of events keeps the invariant. */
  lemma {:induction false} RunKeepsInv(l: Label, events: seq<Event>)
    requires Inv(l)
    requires forall i :: 0 <= i < |events| ==> OnWidget(events[i])
    ensures Inv(Run(l, events))
    decreases |events|
  {
    if |events| > 0 {
      StepKeepsInv(l, events[0]);
      RunKeepsInv(Step(l, events[0]), events[1..]);
    }
  }

  /** Every label reachable from the empty one satisfies the invariant. */
  lemma ReachableLabelsKeepInv(events: seq<Event>)
    requires forall i :: 0 <= i < |events| ==> OnWidget(events[i])
    ensures Inv(Run(Initial, events))
  {
    RunKeepsInv(Initial, events);
  }
}
