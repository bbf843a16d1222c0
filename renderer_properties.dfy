/**
 What the renderer promises: how runs compose, that fragment boundaries do
 not matter, the pending-backtick counter and the parity of backtick runs,
 plain text shown unchanged, code lines and language tags, the geometry of
 the language box, and the quirks the program has.
 */
module RendererProperties {
  import opened Wrappers
  import opened Renderer

  /** `n` backticks in a row. */
  function Backticks(n: nat): string {
    seq(n, _ => Backtick)
  }

  lemma PrefixPrefix(a: seq<Event>, b: seq<Event>, o: Outcome)
    ensures Prefix(a, Prefix(b, o)) == Prefix(a + b, o)
  {
    match o
    case Live(s, m) => assert a + (b + m) == (a + b) + m;
    case Raised(f, _, m) => assert a + (b + m) == (a + b) + m;
  }

  /** Text joined in three pieces is their concatenation. */
  lemma JoinStrings(a: string, b: string, c: string)
    ensures a + b + c == a + (b + c)
  {
  }

  /** Output written in three pieces is their concatenation. */
  lemma Appended(a: seq<Event>, b: seq<Event>, c: seq<Event>)
    ensures a + b + c == a + (b + c)
  {
  }

  lemma PrefixEmpty(o: Outcome)
    ensures Prefix([], o) == o
  {
    match o
    case Live(_, m) => assert [] + m == m;
    case Raised(_, _, m) => assert [] + m == m;
  }

  /** Running `a + b` is running `a`, then `b` from where `a` stopped. */
  lemma {:induction false} RunSplit(s: RenderState, a: string, b: string, width: nat)
    ensures Run(s, a + b, width) == Resume(Run(s, a, width), b, width)
    decreases |b|
  {
    if b == [] {
      assert a + b == a;
      match Run(s, a, width)
      case Live(t, out) => assert out + [] == out;
      case Raised(_, _, _) =>
    } else {
      var b', c := b[..|b| - 1], b[|b| - 1];
      assert (a + b)[..|a + b| - 1] == a + b';
      assert (a + b)[|a + b| - 1] == c;
      RunSplit(s, a, b', width);
      match Run(s, a, width)
      case Raised(_, _, _) =>
      case Live(t, out) =>
        match Run(t, b', width)
        case Raised(_, _, _) =>
        case Live(u, m) => PrefixPrefix(out, m, Step(u, c, width));
    }
  }

  /** One more character continues the run. */
  lemma RunSnoc(s: RenderState, text: string, c: char, width: nat)
    ensures Run(s, text + [c], width) == Then(Run(s, text, width), c, width)
  {
    assert (text + [c])[..|text|] == text;
  }

  /** Once an exception is raised, nothing more is read or written. */
  lemma RaisedIsFinal(s: RenderState, a: string, b: string, width: nat)
    requires Run(s, a, width).Raised?
    ensures Run(s, a + b, width) == Run(s, a, width)
  {
    RunSplit(s, a, b, width);
  }

  /** One more fragment adds its text to the reply text. */
  lemma FlattenNext(fragments: seq<Fragment>, i: nat)
    requires i < |fragments|
    ensures Flatten(fragments[..i + 1]) == Flatten(fragments[..i]) + FragmentText(fragments[i])
  {
    assert fragments[..i + 1][..i] == fragments[..i];
  }

  /** One more character of a text, read after the ones before it. */
  lemma RunTakeNext(s: RenderState, text: string, j: nat, width: nat)
    requires j < |text|
    ensures Run(s, text[..j + 1], width) == Then(Run(s, text[..j], width), text[j], width)
  {
    assert text[..j + 1] == text[..j] + [text[j]];
    RunSnoc(s, text[..j], text[j], width);
  }

  /** An exception raised at character `j` of a text ends the run of the
      whole text there. */
  lemma RaisedMidText(s: RenderState, text: string, j: nat, width: nat)
    requires j < |text| && Run(s, text[..j + 1], width).Raised?
    ensures Run(s, text, width) == Run(s, text[..j + 1], width)
  {
    assert text == text[..j + 1] + text[j + 1..];
    RaisedIsFinal(s, text[..j + 1], text[j + 1..], width);
  }

  /** An exception raised within fragment `i` ends the whole run there. */
  lemma RaisedAtFragment(s: RenderState, fragments: seq<Fragment>, i: nat, width: nat)
    requires i < |fragments| && Run(s, Flatten(fragments[..i + 1]), width).Raised?
    ensures Run(s, Flatten(fragments), width) == Run(s, Flatten(fragments[..i + 1]), width)
  {
    assert fragments[..i + 1] + fragments[i + 1..] == fragments;
    FlattenSplit(fragments[..i + 1], fragments[i + 1..]);
    RaisedIsFinal(s, Flatten(fragments[..i + 1]), Flatten(fragments[i + 1..]), width);
  }

  /** The reply text of two fragment sequences is the two texts joined. */
  lemma {:induction false} FlattenSplit(f: seq<Fragment>, g: seq<Fragment>)
    ensures Flatten(f + g) == Flatten(f) + Flatten(g)
    decreases |g|
  {
    if g == [] {
      assert f + g == f;
    } else {
      var g', x := g[..|g| - 1], g[|g| - 1];
      SnocFragments(f, g);
      FlattenSnoc(f + g', x);
      FlattenSplit(f, g');
      FlattenSnoc(g', x);
      DropLast(g);
      JoinStrings(Flatten(f), Flatten(g'), FragmentText(x));
    }
  }

  lemma SnocFragments(f: seq<Fragment>, g: seq<Fragment>)
    requires g != []
    ensures f + g == (f + g[..|g| - 1]) + [g[|g| - 1]]
  {
    assert g == g[..|g| - 1] + [g[|g| - 1]];
  }

  /** One more fragment adds its text at the end. */
  lemma FlattenSnoc(h: seq<Fragment>, x: Fragment)
    ensures Flatten(h + [x]) == Flatten(h) + FragmentText(x)
  {
    assert (h + [x])[..|h|] == h;
  }

  /** Feeding the fragments one by one, with the state carried across
      fragment boundaries, is the same as running the whole reply text. */
  lemma {:induction false} RunFragmentsFlatten(s: RenderState, fragments: seq<Fragment>, width: nat)
    ensures RunFragments(s, fragments, width) == Run(s, Flatten(fragments), width)
    decreases |fragments|
  {
    if fragments != [] {
      var init := fragments[..|fragments| - 1];
      RunFragmentsFlatten(s, init, width);
      RunSplit(s, Flatten(init), FragmentText(fragments[|fragments| - 1]), width);
    }
  }

  /** Where the reply is split into fragments does not matter: two streams
      with the same text end in the same state with the same output. */
  lemma SplitIndependence(s: RenderState, f: seq<Fragment>, g: seq<Fragment>, width: nat)
    requires Flatten(f) == Flatten(g)
    ensures RunFragments(s, f, width) == RunFragments(s, g, width)
  {
    RunFragmentsFlatten(s, f, width);
    RunFragmentsFlatten(s, g, width);
  }

  /** Runs keep the invariant (so the counter stays in 0..2 and a code line
      is never highlighted without a lexer); the only exception is the
      separator's IndexError, which a rule wider than any tag avoids. */
  lemma {:induction false} RunValid(s: RenderState, text: string, width: nat)
    requires Valid(s)
    ensures var o := Run(s, text, width);
      && (o.Live? ==> Valid(o.state) && (o.state.foundSecondBacktick ==> o.state.foundFirstBacktick))
      && (o.Live? ==> |o.state.language| <= |s.language| + |text|)
      && (o.Raised? ==> o.fault == IndexError)
      && (width > 4 + |s.language| + |text| ==> o.Live?)
    decreases |text|
  {
    if text != [] {
      RunValid(s, text[..|text| - 1], width);
    }
  }

  /** One backtick advances the pending counter modulo 3; the third of a
      run toggles code mode, and a closing one shows a rule. */
  lemma BacktickStepCounts(t: RenderState, width: nat)
    requires Valid(t)
    ensures var o := Step(t, Backtick, width);
      && o.Live?
      && Valid(o.state)
      && Pending(o.state) == (Pending(t) + 1) % 3
      && o.state.codeMode == (if Pending(t) == 2 then !t.codeMode else t.codeMode)
      && (Pending(t) < 2 ==> o.state.readingLanguage == t.readingLanguage && o.state.language == t.language)
      && o.state.variableMode == t.variableMode
      && o.state.codeLine == t.codeLine
      && o.state.lexer == t.lexer
      && o.out == (if Pending(t) == 2 && t.codeMode then [Separator(width, [])] else [])
  {
  }

  /** A run of n backticks, from p pending, toggles code mode (p + n) / 3
      times and leaves (p + n) % 3 pending. */
  lemma {:induction false} BacktickRun(s: RenderState, n: nat, width: nat)
    requires Valid(s)
    ensures var o := Run(s, Backticks(n), width);
      && o.Live?
      && Valid(o.state)
      && Pending(o.state) == (Pending(s) + n) % 3
      && o.state.codeMode == (if (Pending(s) + n) / 3 % 2 == 0 then s.codeMode else !s.codeMode)
    decreases n
  {
    if n > 0 {
      BacktickRun(s, n - 1, width);
      var prev := Run(s, Backticks(n - 1), width);
      var q := Pending(s) + (n - 1);
      CountsAfterBacktick(s, prev, q, width);
      BackticksSnoc(n);
      RunSnoc(s, Backticks(n - 1), Backtick, width);
      PrefixLive(prev.out, Step(prev.state, Backtick, width));
      assert q + 1 == Pending(s) + n;
    }
  }
  /** The inductive step of BacktickRun: one more backtick after a run that
      has seen `q` backticks, counting pending ones. */
  lemma CountsAfterBacktick(s: RenderState, prev: Outcome, q: nat, width: nat)
    requires prev.Live? && Valid(prev.state) && Pending(prev.state) == q % 3
    requires prev.state.codeMode == (if q / 3 % 2 == 0 then s.codeMode else !s.codeMode)
    ensures var next := Step(prev.state, Backtick, width);
      && next.Live?
      && Valid(next.state)
      && Pending(next.state) == (q + 1) % 3
      && next.state.codeMode == (if (q + 1) / 3 % 2 == 0 then s.codeMode else !s.codeMode)
  {
    BacktickStepCounts(prev.state, width);
    ThirdCounts(q);
  }


  lemma BackticksSnoc(n: nat)
    requires n > 0
    ensures Backticks(n) == Backticks(n - 1) + [Backtick]
  {
  }

  /** Writing first to a run still going leaves it going, in the same state. */
  lemma PrefixLive(out: seq<Event>, o: Outcome)
    requires o.Live?
    ensures Prefix(out, o) == Live(o.state, out + o.out)
  {
  }


  /** Fewer than three backticks in all, counting pending ones, only count:
      the run shows nothing and changes nothing but the pending flags. */
  lemma {:induction false} ShortBacktickRun(s: RenderState, n: nat, width: nat)
    requires Valid(s) && Pending(s) + n < 3
    ensures Run(s, Backticks(n), width) ==
      Live(s.(foundFirstBacktick := Pending(s) + n >= 1, foundSecondBacktick := Pending(s) + n >= 2), [])
    decreases n
  {
    if n == 0 {
      assert Backticks(0) == [];
    } else {
      ShortBacktickRun(s, n - 1, width);
      var t := s.(foundFirstBacktick := Pending(s) + n - 1 >= 1, foundSecondBacktick := Pending(s) + n - 1 >= 2);
      BackticksSnoc(n);
      RunSnoc(s, Backticks(n - 1), Backtick, width);
      PrefixEmpty(Step(t, Backtick, width));
    }
  }


  lemma ThirdCounts(q: nat)
    ensures q % 3 == 2 ==> (q + 1) / 3 == q / 3 + 1 && (q + 1) % 3 == 0
    ensures q % 3 != 2 ==> (q + 1) / 3 == q / 3 && (q + 1) % 3 == q % 3 + 1
    ensures q % 3 == 2 ==> ((q + 1) / 3 % 2 == 0 <==> q / 3 % 2 != 0)
    ensures q % 3 != 2 ==> ((q + 1) / 3 % 2 == 0 <==> q / 3 % 2 == 0)
  {
  }

  /** Three backticks with nothing pending open a block (clearing the tag and
      starting to read it) or close one with a full-width rule; the code line
      buffer is left as it is. */
  lemma Fence(s: RenderState, width: nat)
    requires Valid(s) && Pending(s) == 0
    ensures Run(s, "```", width) ==
      if s.codeMode then Live(s.(codeMode := false), [Separator(width, [])])
      else Live(s.(codeMode := true, language := "", readingLanguage := true), [])
  {
    assert "```"[..2] == "``" && "``"[..1] == "`" && "`"[..0] == "";
  }

  /** One or two pending backticks followed by another character toggle
      variable mode exactly once and are then forgotten; outside a block the
      character shows, inverse-video exactly when variable mode is now on.
      This holds inside code blocks too. */
  lemma PendingBackticksToggleOnce(s: RenderState, k: nat, c: char, width: nat)
    requires Valid(s) && Pending(s) == 0 && 1 <= k <= 2
    requires c != Backtick && !(s.readingLanguage && c == Newline)
    ensures var o := Run(s, Backticks(k) + [c], width);
      && o.Live?
      && o.state.variableMode == !s.variableMode
      && Pending(o.state) == 0
      && o.state.codeMode == s.codeMode
      && o.state.readingLanguage == s.readingLanguage
      && (!s.codeMode && !s.readingLanguage ==>
            o == Live(s.(variableMode := !s.variableMode), [if s.variableMode then Plain(c) else Inverse(c)]))
  {
    ShortBacktickRun(s, k, width);
    var t := s.(foundFirstBacktick := true, foundSecondBacktick := k == 2);
    RunSnoc(s, Backticks(k), c, width);
    PrefixEmpty(Step(t, c, width));
  }

  /** The newline that ends a language tag returns before the pending flags
      are cleared: backticks just before it stay pending across it, though
      variable mode still toggles. */
  lemma TagNewlineKeepsPending(s: RenderState, k: nat, width: nat)
    requires Valid(s) && Pending(s) == 0 && 1 <= k <= 2
    requires s.readingLanguage && width > 4 + |s.language|
    ensures var o := Run(s, Backticks(k) + [Newline], width);
      && o.Live?
      && Valid(o.state)
      && Pending(o.state) == k
      && o.state.codeMode == s.codeMode
      && o.state.variableMode == !s.variableMode
      && !o.state.readingLanguage
      && o.state.lexer == Some(s.language)
  {
    ShortBacktickRun(s, k, width);
    var t := s.(foundFirstBacktick := true, foundSecondBacktick := k == 2);
    RunSnoc(s, Backticks(k), Newline, width);
    PrefixEmpty(Step(t, Newline, width));
  }

  /** Outside code blocks and tags, with nothing pending, text without
      backticks is shown character by character, inverse-video exactly in
      variable mode, and the state does not change. */
  lemma {:induction false} PlainTextVerbatim(s: RenderState, text: string, width: nat)
    requires !s.codeMode && !s.readingLanguage && !s.foundFirstBacktick && !s.foundSecondBacktick
    requires Backtick !in text
    ensures var o := Run(s, text, width);
      && o == Live(s, o.out)
      && |o.out| == |text|
      && forall i :: 0 <= i < |text| ==> o.out[i] == (if s.variableMode then Inverse(text[i]) else Plain(text[i]))
    decreases |text|
  {
    if text != [] {
      var p := text[..|text| - 1];
      assert forall i :: 0 <= i < |p| ==> p[i] == text[i];
      PlainTextVerbatim(s, p, width);
      var c := text[|text| - 1];
      PlainChar(s, c, width);
      assert Run(s, text, width) ==
        Live(s, Run(s, p, width).out + [if s.variableMode then Inverse(c) else Plain(c)]);
      ShownSnoc(Run(s, p, width).out, p, c, s.variableMode);
      DropLast(text);
    }
  }

  /** One more character shown after characters shown one by one. */
  lemma ShownSnoc(out: seq<Event>, p: string, c: char, inverse: bool)
    requires |out| == |p|
    requires forall i :: 0 <= i < |p| ==> out[i] == (if inverse then Inverse(p[i]) else Plain(p[i]))
    ensures var more := out + [if inverse then Inverse(c) else Plain(c)];
      && |more| == |p + [c]|
      && forall i :: 0 <= i < |p + [c]| ==> more[i] == (if inverse then Inverse((p + [c])[i]) else Plain((p + [c])[i]))
  {
  }

  /** Outside blocks with nothing pending, a character other than a
      backtick is shown and changes nothing. */
  lemma PlainChar(s: RenderState, c: char, width: nat)
    requires !s.codeMode && !s.readingLanguage && !s.foundFirstBacktick && !s.foundSecondBacktick
    requires c != Backtick
    ensures Step(s, c, width) == Live(s, [if s.variableMode then Inverse(c) else Plain(c)])
  {
  }

  lemma {:induction false} PlainShown(out: seq<Event>, text: string, highlight: (string, string) -> string)
    requires |out| == |text| && forall i :: 0 <= i < |text| ==> out[i] == Plain(text[i])
    ensures Terminal(out, highlight) == text
    decreases |out|
  {
    if out != [] {
      PlainShown(out[..|out| - 1], text[..|text| - 1], highlight);
      assert text == text[..|text| - 1] + [text[|text| - 1]];
    }
  }

  /** Text without backticks, outside code, tags and variable mode, reaches
      the terminal unchanged, whatever the highlighter. */
  lemma PlainTextPrinted(s: RenderState, text: string, width: nat, highlight: (string, string) -> string)
    requires !s.codeMode && !s.readingLanguage && !s.variableMode
    requires !s.foundFirstBacktick && !s.foundSecondBacktick
    requires Backtick !in text
    ensures Run(s, text, width).Live?
    ensures Terminal(Run(s, text, width).out, highlight) == text
  {
    PlainTextVerbatim(s, text, width);
    PlainShown(Run(s, text, width).out, text, highlight);
  }

  /** Inside a code block, past its tag, characters other than backticks and
      newlines only grow the code line buffer; nothing is shown. */
  lemma {:induction false} CodeLineBuffered(s: RenderState, line: string, width: nat)
    requires Valid(s) && s.codeMode && !s.readingLanguage && !s.foundFirstBacktick
    requires Backtick !in line && Newline !in line
    ensures Run(s, line, width) == Live(s.(codeLine := s.codeLine + line), [])
    decreases |line|
  {
    if line != [] {
      var p := line[..|line| - 1];
      assert forall i :: 0 <= i < |p| ==> p[i] == line[i];
      CodeLineBuffered(s, p, width);
      var u := s.(codeLine := s.codeLine + p);
      assert Run(s, line, width) == Prefix([], Step(u, line[|line| - 1], width));
      CodeChar(u, line[|line| - 1], width);
      JoinStrings(s.codeLine, p, [line[|line| - 1]]);
      DropLast(line);
    }
  }

  lemma DropLast<T>(t: seq<T>)
    requires t != []
    ensures t[..|t| - 1] + [t[|t| - 1]] == t
  {
  }

  lemma CodeChar(u: RenderState, c: char, width: nat)
    requires Valid(u) && u.codeMode && !u.readingLanguage && !u.foundFirstBacktick
    requires c != Backtick && c != Newline
    ensures Prefix([], Step(u, c, width)) == Live(u.(codeLine := u.codeLine + [c]), [])
  {
    PrefixEmpty(Step(u, c, width));
  }

  /** A newline hands the buffered line to the highlighter, with the lexer
      of the block, and empties the buffer. */
  lemma CodeLineFlushed(s: RenderState, line: string, width: nat)
    requires Valid(s) && s.codeMode && !s.readingLanguage && !s.foundFirstBacktick
    requires Backtick !in line && Newline !in line
    ensures Run(s, line + [Newline], width) ==
      Live(s.(codeLine := ""), [CodeLine(s.lexer.value, s.codeLine + line)])
  {
    CodeLineBuffered(s, line, width);
    assert (line + [Newline])[..|line|] == line;
  }

  /** While a tag is read, its characters are appended to it and nothing is
      shown. */
  lemma {:induction false} LanguageRead(s: RenderState, tag: string, width: nat)
    requires s.readingLanguage && !s.foundFirstBacktick && !s.foundSecondBacktick
    requires Backtick !in tag && Newline !in tag
    ensures Run(s, tag, width) == Live(s.(language := s.language + tag), [])
    decreases |tag|
  {
    if tag != [] {
      var p := tag[..|tag| - 1];
      assert forall i :: 0 <= i < |p| ==> p[i] == tag[i];
      LanguageRead(s, p, width);
      var u := s.(language := s.language + p);
      assert Run(s, tag, width) == Prefix([], Step(u, tag[|tag| - 1], width));
      TagChar(u, tag[|tag| - 1], width);
      JoinStrings(s.language, p, [tag[|tag| - 1]]);
      DropLast(tag);
    }
  }

  lemma TagChar(u: RenderState, c: char, width: nat)
    requires u.readingLanguage && !u.foundFirstBacktick && !u.foundSecondBacktick
    requires c != Backtick && c != Newline
    ensures Prefix([], Step(u, c, width)) == Live(u.(language := u.language + [c]), [])
  {
    PrefixEmpty(Step(u, c, width));
  }

  /** The rest of a tag line: its characters extend the tag, and its
      newline shows the box (for a non-empty tag), assigns the lexer, stops
      reading and draws the rule with ticks under the box corners, or raises
      IndexError when the terminal is too narrow for the ticks. */
  lemma TagLine(t: RenderState, tag: string, width: nat)
    requires t.readingLanguage && !t.foundFirstBacktick && !t.foundSecondBacktick
    requires Backtick !in tag && Newline !in tag
    ensures var language := t.language + tag;
      var u := t.(language := language, readingLanguage := false, lexer := Some(language));
      var o := Run(t, tag + [Newline], width);
      if language != "" && width <= 4 + |language| then
        o == Raised(IndexError, u, [BoxHeader(language)])
      else
        o == Live(u, (if language == "" then [] else [BoxHeader(language)]) + [Separator(width, Ticks(language))])
  {
    var u := t.(language := t.language + tag);
    RunSplit(t, tag, [Newline], width);
    LanguageRead(t, tag, width);
    assert Run(t, tag, width) == Live(u, []);
    assert [Newline][..0] == [];
    PrefixEmpty(Step(u, Newline, width));
    assert Run(u, [Newline], width) == Step(u, Newline, width);
    PrefixEmpty(Run(u, [Newline], width));
  }

  /** An opening fence with its tag line: the tag becomes the block's
      language and lexer, a box header is shown exactly when the tag is not
      empty, then a rule with ticks under the box corners; the rule raises
      IndexError when the terminal is too narrow for the ticks. */
  lemma OpenFence(s: RenderState, tag: string, width: nat)
    requires Valid(s) && Pending(s) == 0 && !s.codeMode
    requires Backtick !in tag && Newline !in tag
    ensures var u := s.(codeMode := true, language := tag, readingLanguage := false, lexer := Some(tag));
      var o := Run(s, "```" + tag + [Newline], width);
      if tag != "" && width <= 4 + |tag| then
        o == Raised(IndexError, u, [BoxHeader(tag)])
      else
        o == Live(u, (if tag == "" then [] else [BoxHeader(tag)]) + [Separator(width, Ticks(tag))])
  {
    Fence(s, width);
    var t := s.(codeMode := true, language := "", readingLanguage := true);
    JoinStrings("```", tag, [Newline]);
    RunSplit(s, "```", tag + [Newline], width);
    PrefixEmpty(Run(t, tag + [Newline], width));
    TagLine(t, tag, width);
    assert t.language + tag == tag;
  }

  /** A closing fence shows one full-width rule; the code line buffer is
      neither flushed nor changed. */
  lemma CloseFence(s: RenderState, width: nat)
    requires Valid(s) && Pending(s) == 0 && s.codeMode && !s.readingLanguage
    ensures Run(s, "```", width) == Live(s.(codeMode := false), [Separator(width, [])])
  {
    Fence(s, width);
  }
}
