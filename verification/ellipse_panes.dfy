/**
 * The two panes of the ellipse editor as values: the text pane holds its
 * widget contents and its own list of ellipses, the drawing pane holds a
 * list of ellipses. "Send to editor" validates and parses the text,
 * "Send to text" prints the drawing pane's list.
 */
module EllipsePanes {
  import opened Wrappers
  import opened PyText
  import opened EllipseText

  /** The lines of the widget text, as `txt.split('\n')` gives them. */
  function Lines(txt: string): seq<string> {
    Split(txt, '\n')
  }

  /** What the text widget returns for its whole contents: Tk always adds a final newline. */
  function TkGet(content: string): string {
    content + "\n"
  }

  /** The stripped lines that are not blank, in order: the lines both loops look at. */
  function Kept(lines: seq<string>): (r: seq<string>)
    ensures |r| <= |lines|
  {
    if |lines| == 0 then []
    else
      var l := Strip(lines[0]);
      if l == "" then Kept(lines[1..]) else [l] + Kept(lines[1..])
  }

  /** Every kept line is non-blank and already stripped. */
  lemma {:induction false} KeptAreStripped(lines: seq<string>)
    ensures forall i :: 0 <= i < |Kept(lines)| ==> Kept(lines)[i] != "" && Strip(Kept(lines)[i]) == Kept(lines)[i]
  {
    if |lines| > 0 {
      StripIdempotent(lines[0]);
      KeptAreStripped(lines[1..]);
    }
  }

  lemma {:induction false} KeptAppend(a: seq<string>, b: seq<string>)
    ensures Kept(a + b) == Kept(a) + Kept(b)
  {
    if |a| > 0 {
      assert (a + b)[0] == a[0];
      assert (a + b)[1..] == a[1..] + b;
      KeptAppend(a[1..], b);
      if Strip(a[0]) == "" {
        assert Kept(a + b) == Kept(a[1..] + b);
      } else {
        assert Kept(a + b) == [Strip(a[0])] + Kept(a[1..] + b);
      }
    } else {
      assert a + b == b;
    }
  }

  /** Lines that are already stripped and non-blank are all kept, unchanged. */
  lemma {:induction false} KeptStripped(lines: seq<string>)
    requires forall i :: 0 <= i < |lines| ==> lines[i] != "" && Strip(lines[i]) == lines[i]
    ensures Kept(lines) == lines
  {
    if |lines| > 0 {
      KeptStripped(lines[1..]);
    }
  }

  /** Stripping removes characters, it never adds a newline. */
  lemma StripNoNewline(s: string)
    requires '\n' !in s
    ensures '\n' !in Strip(s)
  {
    var r := Strip(s);
    var a := LeadingSpaces(s, IsSpace);
    forall i | 0 <= i < |r|
      ensures r[i] != '\n'
    {
      assert r[i] == s[a + i];
    }
  }

  /** Kept lines hold no newline when the lines they come from hold none. */
  lemma {:induction false} KeptNoNewline(lines: seq<string>)
    requires forall i :: 0 <= i < |lines| ==> '\n' !in lines[i]
    ensures forall i :: 0 <= i < |Kept(lines)| ==> '\n' !in Kept(lines)[i]
  {
    if |lines| > 0 {
      StripNoNewline(lines[0]);
      KeptNoNewline(lines[1..]);
    }
  }

  // ---------------------------------------------------------------------
  // correct_text
  // ---------------------------------------------------------------------

  /** A line the validator writes back into the widget, marked when it failed. */
  datatype TaggedLine = TaggedLine(text: string, error: bool)

  /** The texts of tagged lines. */
  function Texts(shown: seq<TaggedLine>): (r: seq<string>)
    ensures |r| == |shown|
  {
    if |shown| == 0 then [] else [shown[0].text] + Texts(shown[1..])
  }

  /** The outcome of `correct_text`: its verdict and the lines it writes back. */
  datatype Checked = Checked(ok: bool, shown: seq<TaggedLine>)

  /**
   * The loop of `correct_text` over the lines, with the check of one line
   * passed in as `accept`: blank lines are dropped, every other line is
   * written back stripped, tagged when `accept` rejects it, and the verdict
   * is whether no line was rejected.
   */
  function CheckLines(lines: seq<string>, accept: string -> bool): (r: Checked)
    ensures Texts(r.shown) == Kept(lines)
    ensures forall i :: 0 <= i < |r.shown| ==> (r.shown[i].error <==> !accept(r.shown[i].text))
    ensures r.ok <==> forall l :: l in Kept(lines) ==> accept(l)
  {
    if |lines| == 0 then Checked(true, [])
    else
      var line := Strip(lines[0]);
      var rest := CheckLines(lines[1..], accept);
      if line == "" then rest
      else
        var good := accept(line);
        var shown := [TaggedLine(line, !good)] + rest.shown;
        assert shown[1..] == rest.shown;
        assert Kept(lines) == [line] + Kept(lines[1..]);
        Checked(good && rest.ok, shown)
  }

  /** `correct_text` on the widget contents: every kept line must pass `AcceptLine`. */
  function CorrectText(content: string): (r: Checked)
    ensures Texts(r.shown) == Kept(Lines(TkGet(content)))
    ensures r.ok <==> forall l :: l in Kept(Lines(TkGet(content))) ==> AcceptLine(l)
    ensures forall i :: 0 <= i < |r.shown| ==> (r.shown[i].error <==> !AcceptLine(r.shown[i].text))
  {
    CheckLines(Lines(TkGet(content)), AcceptLine)
  }

  /** The widget contents after `correct_text` rewrote it: each kept line followed by a newline. */
  function Render(shown: seq<TaggedLine>): string {
    if |shown| == 0 then "" else shown[0].text + "\n" + Render(shown[1..])
  }

  lemma {:induction false} RenderJoin(shown: seq<TaggedLine>)
    ensures Render(shown) == Join(Texts(shown) + [""], '\n')
  {
    if |shown| > 0 {
      RenderJoin(shown[1..]);
      assert Texts(shown) + [""] == [shown[0].text] + (Texts(shown[1..]) + [""]);
    }
  }

  /** Reading back the rewritten widget sees the same kept lines as before the rewrite. */
  lemma RewriteKeepsLines(content: string)
    ensures Kept(Lines(TkGet(Render(CorrectText(content).shown)))) == Kept(Lines(TkGet(content)))
  {
    var lines := Lines(TkGet(content));
    KeptNoNewline(lines);
    KeptAreStripped(lines);
    RenderedLines(CorrectText(content).shown);
  }

  /** Reading back rendered lines that are stripped, non-blank and newline-free gives exactly those lines. */
  lemma RenderedLines(shown: seq<TaggedLine>)
    requires forall i :: 0 <= i < |Texts(shown)| ==>
               Texts(shown)[i] != "" && Strip(Texts(shown)[i]) == Texts(shown)[i] && '\n' !in Texts(shown)[i]
    ensures Kept(Lines(TkGet(Render(shown)))) == Texts(shown)
  {
    var kept := Texts(shown);
    RenderedText(shown);
    PaddedNoNewline(kept);
    SplitJoin(kept + ["", ""], '\n');
    KeptPadded(kept);
  }

  /** The rewritten widget, read back, is the kept lines followed by two empty pieces. */
  lemma RenderedText(shown: seq<TaggedLine>)
    ensures TkGet(Render(shown)) == Join(Texts(shown) + ["", ""], '\n')
  {
    var kept := Texts(shown);
    RenderJoin(shown);
    assert kept + ["", ""] == (kept + [""]) + [""];
    JoinAppendEmpty(kept + [""], '\n');
  }

  lemma PaddedNoNewline(kept: seq<string>)
    requires forall i :: 0 <= i < |kept| ==> '\n' !in kept[i]
    ensures forall i :: 0 <= i < |kept + ["", ""]| ==> '\n' !in (kept + ["", ""])[i]
  {
    var parts := kept + ["", ""];
    forall i | 0 <= i < |parts|
      ensures '\n' !in parts[i]
    {
      if i < |kept| {
        assert parts[i] == kept[i];
      }
    }
  }

  /** Two trailing empty lines are not kept. */
  lemma KeptPadded(kept: seq<string>)
    requires forall i :: 0 <= i < |kept| ==> kept[i] != "" && Strip(kept[i]) == kept[i]
    ensures Kept(kept + ["", ""]) == kept
  {
    KeptAppend(kept, ["", ""]);
    assert Kept(["", ""]) == [] by {
      assert Strip("") == "";
      assert Kept(["", ""]) == Kept([""]) == Kept([]);
    }
    KeptStripped(kept);
  }

  // ---------------------------------------------------------------------
  // convert_text
  // ---------------------------------------------------------------------

  /**
   * The loop of `convert_text`, with the parse of one line passed in as
   * `parse`: one ellipse per non-blank line, in order; `None` where a line
   * does not parse (Python raises).
   */
  function ConvertLines(lines: seq<string>, parse: string -> Option<Ellipse>): (r: Option<seq<Ellipse>>)
    ensures r.Some? <==> forall l :: l in Kept(lines) ==> parse(l).Some?
    ensures r.Some? ==> |r.value| == |Kept(lines)|
    ensures r.Some? ==> forall i :: 0 <= i < |r.value| ==> parse(Kept(lines)[i]) == Some(r.value[i])
  {
    if |lines| == 0 then Some([])
    else
      var line := Strip(lines[0]);
      var rest := ConvertLines(lines[1..], parse);
      if line == "" then
        assert Kept(lines) == Kept(lines[1..]);
        rest
      else
        assert Kept(lines) == [line] + Kept(lines[1..]);
        match (parse(line), rest)
        case (Some(e), Some(es)) => Some([e] + es)
        case _ => None
  }

  /** `convert_text` on the widget contents: every kept line goes through `ParseLine`. */
  function ConvertText(content: string): (r: Option<seq<Ellipse>>)
    ensures r.Some? <==> forall l :: l in Kept(Lines(TkGet(content))) ==> ParseLine(l).Some?
    ensures r.Some? ==> |r.value| == |Kept(Lines(TkGet(content)))|
    ensures r.Some? ==> forall i :: 0 <= i < |r.value| ==>
              ParseLine(Kept(Lines(TkGet(content)))[i]) == Some(r.value[i])
  {
    ConvertLines(Lines(TkGet(content)), ParseLine)
  }

  /** `ConvertLines` depends only on the kept lines. */
  lemma ConvertSameKept(a: seq<string>, b: seq<string>, parse: string -> Option<Ellipse>)
    requires Kept(a) == Kept(b)
    ensures ConvertLines(a, parse) == ConvertLines(b, parse)
  {
    var ra := ConvertLines(a, parse);
    var rb := ConvertLines(b, parse);
    if ra.Some? && rb.Some? {
      assert ra.value == rb.value;
    }
  }

  /** Text that passes the validator can be converted, into well-formed ellipses. */
  lemma CorrectTextConverts(content: string)
    requires CorrectText(content).ok
    ensures ConvertText(content).Some?
    ensures forall i :: 0 <= i < |ConvertText(content).value| ==> WellFormed(ConvertText(content).value[i])
  {
    var lines := Lines(TkGet(content));
    var kept := Kept(lines);
    KeptNoNewline(lines);
    forall i | 0 <= i < |kept|
      ensures ParseLine(kept[i]).Some? && WellFormed(ParseLine(kept[i]).value)
    {
      AcceptLineIffWellFormed(kept[i]);
    }
  }

  // ---------------------------------------------------------------------
  // The panes and the two send buttons
  // ---------------------------------------------------------------------

  /** The text pane: what its widget shows and the list it last accepted. */
  datatype TextPane = TextPane(content: string, ellipses: seq<Ellipse>)

  /** The state after "Send to editor": the text pane and the drawing pane's new list. */
  datatype Sent = Sent(text: TextPane, editor: seq<Ellipse>)

  /**
   * "Send to editor": validate (rewriting the widget), replace the pane's
   * list by the parsed text only when validation passed, then hand the
   * drawing pane a copy of the pane's list.
   */
  function SendToEditor(pane: TextPane): (r: Sent)
    ensures r.editor == r.text.ellipses
    ensures r.text.content == Render(CorrectText(pane.content).shown)
    ensures !CorrectText(pane.content).ok ==> r.text.ellipses == pane.ellipses
    ensures CorrectText(pane.content).ok ==>
              && Some(r.text.ellipses) == ConvertText(pane.content)
              && forall i :: 0 <= i < |r.editor| ==> WellFormed(r.editor[i])
  {
    var checked := CorrectText(pane.content);
    var shown := Render(checked.shown);
    if checked.ok then
      RewriteKeepsLines(pane.content);
      ConvertSameKept(Lines(TkGet(shown)), Lines(TkGet(pane.content)), ParseLine);
      CorrectTextConverts(pane.content);
      var es := ConvertText(shown).value;
      Sent(TextPane(shown, es), es)
    else
      Sent(TextPane(shown, pane.ellipses), pane.ellipses)
  }

  /** The text pane's drawing of a list: the printed ellipses joined by newlines. */
  function Draw(es: seq<Ellipse>): (text: string)
    ensures |es| >= 1 && (forall i :: 0 <= i < |es| ==> WellFormed(es[i])) ==>
              Lines(text) == seq(|es|, i requires 0 <= i < |es| => Format(es[i]))
  {
    PrintedSplitBack(es);
    Join(seq(|es|, i requires 0 <= i < |es| => Format(es[i])), '\n')
  }

  lemma PrintedSplitBack(es: seq<Ellipse>)
    ensures var fs := seq(|es|, i requires 0 <= i < |es| => Format(es[i]));
      |es| >= 1 && (forall i :: 0 <= i < |es| ==> WellFormed(es[i])) ==> Split(Join(fs, '\n'), '\n') == fs
  {
    var fs := seq(|es|, i requires 0 <= i < |es| => Format(es[i]));
    if |es| >= 1 && (forall i :: 0 <= i < |es| ==> WellFormed(es[i])) {
      forall i | 0 <= i < |es|
        ensures '\n' !in fs[i]
      {
        FormatShape(es[i]);
      }
      SplitJoin(fs, '\n');
    }
  }

  /** "Send to text": the text pane takes a copy of the drawing pane's list and shows it. */
  function SendToText(editor: seq<Ellipse>): (pane: TextPane)
    ensures pane.ellipses == editor
  {
    TextPane(Draw(editor), editor)
  }

  /** The kept lines of a drawn list are the printed ellipses. */
  lemma DrawnLines(es: seq<Ellipse>)
    requires forall i :: 0 <= i < |es| ==> WellFormed(es[i])
    ensures Kept(Lines(TkGet(Draw(es)))) == seq(|es|, i requires 0 <= i < |es| => Format(es[i]))
  {
    var fs := seq(|es|, i requires 0 <= i < |es| => Format(es[i]));
    forall i | 0 <= i < |es|
      ensures '\n' !in fs[i] && fs[i] != "" && Strip(fs[i]) == fs[i]
    {
      FormatShape(es[i]);
      StripKeeps(fs[i]);
    }
    if |es| == 0 {
      assert TkGet(Draw(es)) == Join(["", ""], '\n');
      SplitJoin(["", ""], '\n');
    } else {
      JoinAppendEmpty(fs, '\n');
      SplitJoin(fs + [""], '\n');
      KeptAppend(fs, [""]);
      KeptStripped(fs);
    }
  }

  /** A printed well-formed ellipse is one line with no surrounding whitespace. */
  lemma FormatShape(e: Ellipse)
    requires WellFormed(e)
    ensures var line := Join(Fields(e), ' ');
      '\n' !in line && |line| > 0 && !IsSpace(line[0]) && !IsSpace(line[|line| - 1])
  {
    var f := Fields(e);
    FieldsHaveNoSeparators(e);
    NoNewlineJoin(f, ' ');
    assert forall i :: 0 <= i < |f| ==> f[i] != "";
    JoinEnds(f, ' ');
    ColorCodeShape(e.borderColor);
    assert f[0] == IntToString(e.x0) && f[6] == e.borderColor;
  }

  /**
   * The panes stay in sync: sending a list of well-formed ellipses to the
   * text pane and straight back passes validation and hands the drawing
   * pane the same list.
   */
  lemma SyncRoundTrip(es: seq<Ellipse>)
    requires forall i :: 0 <= i < |es| ==> WellFormed(es[i])
    ensures CorrectText(SendToText(es).content).ok
    ensures SendToEditor(SendToText(es)).editor == es
  {
    var content := Draw(es);
    DrawnLines(es);
    PrintedRoundTrip(content, es);
    assert SendToText(es).content == content;
  }

  /** Text whose kept lines are the printed ellipses validates and converts back to them. */
  lemma PrintedRoundTrip(content: string, es: seq<Ellipse>)
    requires forall i :: 0 <= i < |es| ==> WellFormed(es[i])
    requires Kept(Lines(TkGet(content))) == seq(|es|, i requires 0 <= i < |es| => Format(es[i]))
    ensures CorrectText(content).ok
    ensures ConvertText(content) == Some(es)
  {
    var lines := Lines(TkGet(content));
    forall i | 0 <= i < |es|
      ensures AcceptLine(Kept(lines)[i]) && ParseLine(Kept(lines)[i]) == Some(es[i])
    {
      FormatRoundTrip(es[i]);
    }
    var r := ConvertText(content);
    assert r.Some?;
    assert r.value == es;
  }
}
