/**
 The language box and its rule, whole replies worked through end to end,
 and the places where the program behaves in ways a reader might not
 expect.
 */
module RendererScenarios {
  import opened Wrappers
  import opened Renderer
  import opened RendererProperties

  /** The box's two lines have the same length, and the rule's ticks sit
      under the box's corners, when the terminal is wider than the box. */
  lemma BoxAligned(language: string, width: nat)
    requires language != "" && width > 4 + |language|
    ensures |BoxTop(language)| == |BoxLabel(language)| == |language| + 5
    ensures BoxTop(language)[1] == '╭' && BoxTop(language)[|language| + 4] == '╮'
    ensures BoxLabel(language)[1] == '│' && BoxLabel(language)[|language| + 4] == '│'
    ensures BoxLabel(language)[3..|language| + 3] == language
    ensures var row := SeparatorRow(width, Ticks(language));
      && row[1] == '┴' && row[4 + |language|] == '┴'
      && forall i :: 0 <= i < width && i != 1 && i != 4 + |language| ==> row[i] == '─'
  {
    var top := BoxTop(language);
    assert top == " ╭" + Repeat('─', |language| + 2) + "╮";
    assert top[|language| + 4] == '╮';
  }

  /** "``````" opens a block and closes it again before any newline: code
      mode is off, but the renderer is still reading a language tag. */
  lemma StaleReadingLanguage(lexer: Option<string>, width: nat)
    ensures Run(Start(lexer), "``````", width) ==
      Live(Start(lexer).(readingLanguage := true), [Separator(width, [])])
  {
    var s := Start(lexer);
    var t := s.(codeMode := true, language := "", readingLanguage := true);
    Fence(s, width);
    Fence(t, width);
    assert "``````" == "```" + "```";
    RunSplit(s, "```", "```", width);
  }

  /** After "``````" the next line, though outside any block, is swallowed as
      a language tag: nothing of it is shown, and its newline draws a box and
      a rule for it. */
  lemma StaleTagSwallowsText(lexer: Option<string>, text: string, width: nat)
    requires Backtick !in text && Newline !in text
    requires text != "" && width > 4 + |text|
    ensures var o := Run(Start(lexer), "``````" + text + [Newline], width);
      && o.Live?
      && !o.state.codeMode && !o.state.readingLanguage
      && o.state.lexer == Some(text)
      && o.out == [Separator(width, []), BoxHeader(text), Separator(width, Ticks(text))]
  {
    var s := Start(lexer);
    var t := s.(readingLanguage := true);
    var fences, line := "``````", text + [Newline];
    StaleReadingLanguage(lexer, width);
    JoinStrings(fences, text, [Newline]);
    RunSplit(s, fences, line, width);
    TagLine(t, text, width);
    assert t.language + text == text;
    var o := Run(t, line, width);
    PrefixLive([Separator(width, [])], o);
    ThreeEvents(Separator(width, []), BoxHeader(text), Separator(width, Ticks(text)));
  }

  /** Backticks just before the newline of a tag stay pending across it, so
      one more backtick closes the block: a reply such as "```py``\n`" holds
      a single "```", yet code mode is off at its end. */
  lemma FenceClosedByStrayBackticks(lexer: Option<string>, tag: string, width: nat)
    requires Backtick !in tag && Newline !in tag && width > 4 + |tag|
    ensures var o := Run(Start(lexer), "```" + tag + (Backticks(2) + [Newline] + [Backtick]), width);
      o.Live? && !o.state.codeMode && Pending(o.state) == 0
  {
    var s := Start(lexer);
    var u := s.(codeMode := true, language := tag, readingLanguage := true);
    TagOpened(lexer, tag, width);
    StrayBackticks(u, width);
    RunSplit(s, "```" + tag, Backticks(2) + [Newline] + [Backtick], width);
    PrefixEmpty(Run(u, Backticks(2) + [Newline] + [Backtick], width));
  }

  /** A fence and the characters of its tag, before the tag's newline. */
  lemma TagOpened(lexer: Option<string>, tag: string, width: nat)
    requires Backtick !in tag && Newline !in tag
    ensures Run(Start(lexer), "```" + tag, width) ==
      Live(Start(lexer).(codeMode := true, language := tag, readingLanguage := true), [])
  {
    var s := Start(lexer);
    var t := s.(codeMode := true, language := "", readingLanguage := true);
    Fence(s, width);
    LanguageRead(t, tag, width);
    assert t.language + tag == tag;
    RunSplit(s, "```", tag, width);
    PrefixEmpty(Run(t, tag, width));
  }

  /** Two backticks, the tag's newline, and one more backtick: the third
      completes a fence and closes the block. */
  lemma StrayBackticks(u: RenderState, width: nat)
    requires Valid(u) && Pending(u) == 0 && u.codeMode && u.readingLanguage
    requires width > 4 + |u.language|
    ensures var o := Run(u, Backticks(2) + [Newline] + [Backtick], width);
      o.Live? && !o.state.codeMode && Pending(o.state) == 0
  {
    TagNewlineKeepsPending(u, 2, width);
    var o3 := Run(u, Backticks(2) + [Newline], width);
    BacktickStepCounts(o3.state, width);
    RunSnoc(u, Backticks(2) + [Newline], Backtick, width);
    PrefixLive(o3.out, Step(o3.state, Backtick, width));
  }



  /** A single backtick inside a code block still toggles variable mode, and
      the mode outlives the block: the character after the closing fence is
      shown in inverse video. */
  lemma VariableModeSurvivesCodeBlock(width: nat)
    ensures var o := Run(Start(None), "```\n" + "`\n" + "```" + "y", width);
      && o.Live? && o.state.variableMode && !o.state.codeMode
      && o.out != [] && o.out[|o.out| - 1] == Inverse('y')
  {
    var s := Start(None);
    var s1 := s.(codeMode := true, lexer := Some(""));
    var s2 := s1.(variableMode := true);
    var s3 := s2.(codeMode := false);
    BareFenceOpened(width);
    BacktickBeforeNewlineInBlock(width);
    Fence(s2, width);
    InverseY(s3, width);
    RunSplit(s, "```\n", "`\n", width);
    RunSplit(s, "```\n" + "`\n", "```", width);
    RunSplit(s, "```\n" + "`\n" + "```", "y", width);
  }

  /** A fence without a tag opens a block with the lexer of the empty tag. */
  lemma BareFenceOpened(width: nat)
    ensures Run(Start(None), "```\n", width) ==
      Live(Start(None).(codeMode := true, lexer := Some("")), [Separator(width, [])])
  {
    OpenFence(Start(None), "", width);
    assert "```" + "" + [Newline] == "```\n";
  }

  /** In a block without a tag, a backtick before the newline toggles
      variable mode while the empty code line goes to the highlighter. */
  lemma BacktickBeforeNewlineInBlock(width: nat)
    ensures var s1 := Start(None).(codeMode := true, lexer := Some(""));
      Run(s1, "`\n", width) == Live(s1.(variableMode := true), [CodeLine("", "")])
  {
    var s1 := Start(None).(codeMode := true, lexer := Some(""));
    assert "`\n"[..1] == [Backtick] && "`\n"[..1][..0] == [];
    PrefixEmpty(Step(s1, Backtick, width));
  }

  /** Outside blocks, in variable mode, a character is shown inverted. */
  lemma InverseY(s: RenderState, width: nat)
    requires !s.codeMode && !s.readingLanguage && !s.foundFirstBacktick && !s.foundSecondBacktick
    requires s.variableMode
    ensures Run(s, "y", width) == Live(s, [Inverse('y')])
  {
    assert "y"[..0] == "";
    PrefixEmpty(Step(s, 'y', width));
  }

  lemma FlattenThree(a: string, b: string, c: string)
    ensures Flatten([Some(a), Some(b), Some(c)]) == a + b + c
  {
    var f := [Some(a), Some(b), Some(c)];
    assert f[..2] == [Some(a), Some(b)] && f[..2][..1] == [Some(a)] && f[..2][..1][..0] == [];
    assert Flatten(f[..2][..1]) == a;
    assert Flatten(f[..2]) == a + b;
  }

  /** Characters shown one event each, inverse-video or as they are. */
  function Shown(text: string, inverse: bool): seq<Event> {
    seq(|text|, i requires 0 <= i < |text| => if inverse then Inverse(text[i]) else Plain(text[i]))
  }

  lemma ShownSplit(c: char, text: string, inverse: bool)
    ensures Shown([c] + text, inverse) == Shown([c], inverse) + Shown(text, inverse)
  {
  }

  lemma PlainRun(s: RenderState, text: string, width: nat)
    requires !s.codeMode && !s.readingLanguage && !s.foundFirstBacktick && !s.foundSecondBacktick
    requires Backtick !in text
    ensures Run(s, text, width) == Live(s, Shown(text, s.variableMode))
  {
    PlainTextVerbatim(s, text, width);
  }

  /** A backtick followed by text without backticks, from a quiet state:
      variable mode flips and the text is shown in the new mode. */
  lemma ToggledText(s: RenderState, text: string, width: nat)
    requires !s.codeMode && !s.readingLanguage && !s.foundFirstBacktick && !s.foundSecondBacktick
    requires Backtick !in text && text != ""
    ensures Run(s, [Backtick] + text, width) ==
      Live(s.(variableMode := !s.variableMode), Shown(text, !s.variableMode))
  {
    var v := s.(variableMode := !s.variableMode);
    var head, tail := Backticks(1) + [text[0]], text[1..];
    ToggledHead(s, text[0], width);
    TailRun(v, text, width);
    RunSplit(s, head, tail, width);
    HeadTail(text);
    PrefixLive(Shown([text[0]], !s.variableMode), Run(v, tail, width));
    ShownSplit(text[0], tail, !s.variableMode);
  }

  /** A backtick before a text, as the first two characters and the rest. */
  lemma HeadTail(text: string)
    requires text != ""
    ensures [Backtick] + text == (Backticks(1) + [text[0]]) + text[1..]
  {
    assert Backticks(1) == [Backtick];
    assert text == [text[0]] + text[1..];
  }

  lemma ToggledHead(s: RenderState, c: char, width: nat)
    requires !s.codeMode && !s.readingLanguage && !s.foundFirstBacktick && !s.foundSecondBacktick
    requires c != Backtick
    ensures Run(s, Backticks(1) + [c], width) ==
      Live(s.(variableMode := !s.variableMode), Shown([c], !s.variableMode))
  {
    PendingBackticksToggleOnce(s, 1, c, width);
  }

  lemma TailRun(v: RenderState, text: string, width: nat)
    requires !v.codeMode && !v.readingLanguage && !v.foundFirstBacktick && !v.foundSecondBacktick
    requires Backtick !in text && text != ""
    ensures Run(v, text[1..], width) == Live(v, Shown(text[1..], v.variableMode))
    ensures [text[0]] + text[1..] == text
  {
    assert forall i :: 0 <= i < |text| - 1 ==> text[1..][i] == text[i + 1];
    PlainRun(v, text[1..], width);
  }

  /** The text of an inline span reply: the span between the two backticks
      is shown in inverse video, the rest as it is, and the renderer ends
      where it began. */
  lemma InlineSpanText(s: RenderState, before: string, span: string, after: string, width: nat)
    requires !s.codeMode && !s.readingLanguage && !s.foundFirstBacktick && !s.foundSecondBacktick
    requires !s.variableMode
    requires Backtick !in before && Backtick !in span && Backtick !in after
    requires span != "" && after != ""
    ensures Run(s, before + ([Backtick] + span) + ([Backtick] + after), width) ==
      Live(s, Shown(before, false) + Shown(span, true) + Shown(after, false))
  {
    var v := s.(variableMode := true);
    PlainRun(s, before, width);
    ToggledText(s, span, width);
    ToggledText(v, after, width);
    assert v.(variableMode := false) == s;
    RunSplit(s, before, [Backtick] + span, width);
    RunSplit(s, before + ([Backtick] + span), [Backtick] + after, width);
  }

  /** A reply with an inline span, streamed as `before` and its backtick,
      the span, and the closing backtick with `after`: the span is shown in
      inverse video, the rest as it is, and the renderer ends where it began.
      With before = "Use ", span = "x" and after = " here" this is the reply
      "Use `x` here". */
  lemma InlineSpanReply(lexer: Option<string>, before: string, span: string, after: string, width: nat)
    requires Backtick !in before && Backtick !in span && Backtick !in after
    requires span != "" && after != ""
    ensures var fragments := [Some(before + [Backtick]), Some(span), Some([Backtick] + after)];
      && Flatten(fragments) == before + [Backtick] + span + [Backtick] + after
      && RunFragments(Start(lexer), fragments, width) ==
         Live(Start(lexer), Shown(before, false) + Shown(span, true) + Shown(after, false))
  {
    var fragments := [Some(before + [Backtick]), Some(span), Some([Backtick] + after)];
    var s := Start(lexer);
    FlattenThree(before + [Backtick], span, [Backtick] + after);
    RunFragmentsFlatten(s, fragments, width);
    InlineSpanText(s, before, span, after, width);
    Regroup(before, [Backtick], span, [Backtick] + after);
  }

  /** A reply holding one code block, streamed as its tag line, one code
      line, and the closing fence: the box for the tag, a rule ticked under
      its corners, the highlighted line, and a closing rule. With tag =
      "python" and line = "print(1)" this is the reply
      "```python\nprint(1)\n```". */
  lemma CodeBlockReply(lexer: Option<string>, tag: string, line: string, width: nat)
    requires Backtick !in tag && Newline !in tag && Backtick !in line && Newline !in line
    requires tag != "" && width > 4 + |tag|
    ensures var fragments := [Some("```" + tag + [Newline]), Some(line + [Newline]), Some("```")];
      && Flatten(fragments) == "```" + tag + [Newline] + line + [Newline] + "```"
      && RunFragments(Start(lexer), fragments, width) ==
         Live(Start(lexer).(language := tag, lexer := Some(tag)),
              [BoxHeader(tag), Separator(width, Ticks(tag)),
               CodeLine(tag, line), Separator(width, [])])
  {
    var fragments := [Some("```" + tag + [Newline]), Some(line + [Newline]), Some("```")];
    var s := Start(lexer);
    FlattenThree("```" + tag + [Newline], line + [Newline], "```");
    RunFragmentsFlatten(s, fragments, width);
    CodeBlockText(s, tag, line, width);
  }

  lemma CodeBlockText(s: RenderState, tag: string, line: string, width: nat)
    requires s == Start(s.lexer)
    requires Backtick !in tag && Newline !in tag && Backtick !in line && Newline !in line
    requires tag != "" && width > 4 + |tag|
    ensures Run(s, "```" + tag + [Newline] + line + [Newline] + "```", width) ==
         Live(s.(language := tag, lexer := Some(tag)),
              [BoxHeader(tag), Separator(width, Ticks(tag)),
               CodeLine(tag, line), Separator(width, [])])
  {
    var header := [BoxHeader(tag), Separator(width, Ticks(tag))];
    var s1 := s.(codeMode := true, language := tag, readingLanguage := false, lexer := Some(tag));
    var s2 := s1.(codeLine := "");
    var p1 := "```" + tag + [Newline];
    var p2 := p1 + (line + [Newline]);
    OpenFence(s, tag, width);
    assert [BoxHeader(tag)] + [Separator(width, Ticks(tag))] == header;
    assert Run(s, p1, width) == Live(s1, header);
    CodeLineFlushed(s1, line, width);
    assert "" + line == line;
    assert Run(s1, line + [Newline], width) == Live(s2, [CodeLine(tag, line)]);
    RunSplit(s, p1, line + [Newline], width);
    assert Run(s, p2, width) == Live(s2, header + [CodeLine(tag, line)]);
    CloseFence(s2, width);
    RunSplit(s, p2, "```", width);
    var out := header + [CodeLine(tag, line)] + [Separator(width, [])];
    assert Run(s, p2 + "```", width) == Live(s2.(codeMode := false), out);
    var whole := "```" + tag + [Newline] + line + [Newline] + "```";
    assert whole == p2 + "```" by { Reassociate(p1, line, "```"); }
    assert Run(s, whole, width) == Live(s2.(codeMode := false), out);
    assert s2.(codeMode := false) == s.(language := tag, lexer := Some(tag));
    FourEvents(BoxHeader(tag), Separator(width, Ticks(tag)), CodeLine(tag, line), Separator(width, []));
  }


  lemma ThreeEvents(a: Event, b: Event, c: Event)
    ensures [a] + ([b] + [c]) == [a, b, c]
  {
  }


  lemma Regroup(a: string, b: string, c: string, d: string)
    ensures a + b + c + d == a + (b + c) + d
  {
  }

  lemma FourEvents(a: Event, b: Event, c: Event, d: Event)
    ensures [a, b] + [c] + [d] == [a, b, c, d]
  {
  }

  lemma Reassociate(p: string, line: string, q: string)
    ensures p + (line + [Newline]) + q == p + line + [Newline] + q
  {
  }
}
