/**
 The streaming response renderer: a character-at-a-time state machine that
 reads the assistant's reply and decides what the terminal shows (plain text,
 inverse-video inline spans, a language box, separator rules and highlighted
 code lines).

 The program runs it twice, as `Response._print_char` in message.py and as
 the loop inside `Conversation._create_response` in main.py. Here it is one
 pure transition, `Step`, lifted to strings (`Run`) and to the stream of
 reply fragments (`RunFragments`). The terminal is a sequence of abstract
 `Event`s; the terminal width and the syntax highlighter are parameters.
 */
module Renderer {
  import opened Wrappers

  const Backtick: char := '`'
  const Newline: char := '\n'

  /** The renderer's fields. `lexer` is the language name the highlighting
      lexer was last resolved from, `None` while no lexer was ever assigned. */
  datatype RenderState = RenderState(
    variableMode: bool,
    codeMode: bool,
    foundFirstBacktick: bool,
    foundSecondBacktick: bool,
    readingLanguage: bool,
    language: string,
    codeLine: string,
    lexer: Option<string>)

  /** The fields as a response sets them up before its first character; the
      lexer is not reset. */
  function Start(lexer: Option<string>): (s: RenderState)
    ensures Valid(s) && Pending(s) == 0 && !s.codeMode && !s.readingLanguage
    ensures !s.variableMode && s.language == "" && s.codeLine == "" && s.lexer == lexer
  {
    RenderState(false, false, false, false, false, "", "", lexer)
  }

  /** What the renderer writes to the terminal. */
  datatype Event =
    | Plain(c: char)                        // a character as is
    | Inverse(c: char)                      // a character in inverse video
    | CodeLine(lexer: string, line: string) // a code line handed to the highlighter
    | BoxHeader(language: string)           // the two-line box around a language tag
    | Separator(width: nat, ticks: seq<nat>) // a rule of `width` columns, `┴` at `ticks`

  /** The Python exceptions the renderer can raise. */
  datatype Fault =
    | IndexError     // a separator tick past the end of the rule
    | AttributeError // a code line highlighted before any lexer was assigned

  /** Where a run of the machine ends: still running, or stopped by an
      exception. `state` is the fields as they are at that point, `out`
      everything written before it. */
  datatype Outcome =
    | Live(state: RenderState, out: seq<Event>)
    | Raised(fault: Fault, state: RenderState, out: seq<Event>)

  /** The pending-backtick flags never claim a second backtick without a
      first, and a code line can only be highlighted once a lexer exists. */
  predicate Valid(s: RenderState) {
    && (s.foundSecondBacktick ==> s.foundFirstBacktick)
    && (s.codeMode && !s.readingLanguage ==> s.lexer.Some?)
  }

  /** The two pending flags read as a counter. */
  function Pending(s: RenderState): nat {
    if s.foundSecondBacktick then 2 else if s.foundFirstBacktick then 1 else 0
  }

  /** The columns of the separator rule that get a `┴`, lined up with the
      corners of the language box. */
  function Ticks(language: string): (r: seq<nat>)
    ensures r == [] <==> language == ""
    ensures language != "" ==> |r| == 2 && r[0] < r[1] < |BoxTop(language)|
    ensures language != "" ==> BoxTop(language)[r[0]] == '╭' && BoxTop(language)[r[1]] == '╮'
  {
    if language == "" then [] else [1, 4 + |language|]
  }

  /** The `_print` helper: what one character shows on the terminal. */
  function Visible(c: char, readingLanguage: bool, codeMode: bool, variableMode: bool): (r: seq<Event>)
    ensures r == [] <==> c == Backtick || readingLanguage || codeMode
    ensures r != [] ==> r == [if variableMode then Inverse(c) else Plain(c)]
  {
    if c == Backtick then []
    else if readingLanguage then []
    else if codeMode then []
    else if variableMode then [Inverse(c)]
    else [Plain(c)]
  }

  /** One character of the reply. */
  function Step(s: RenderState, c: char, width: nat): (o: Outcome)
    ensures Valid(s) ==>
      (o.Raised? <==> c == Newline && s.readingLanguage && s.language != "" && width <= 4 + |s.language|)
    ensures Valid(s) && o.Raised? ==> o.fault == IndexError && o.out == [BoxHeader(s.language)]
    ensures Valid(s) && o.Live? ==> Valid(o.state)
    ensures o.Live? ==> |o.state.language| <= |s.language| + 1
  {
    if c == Backtick then BacktickStep(s, width) else OtherStep(s, c, width)
  }

  /** A backtick: the first two are held back; the third toggles code mode,
      opening a block (and starting to read its language tag) or closing it
      with a full-width rule. A backtick itself is never shown. */
  function BacktickStep(s: RenderState, width: nat): (o: Outcome)
    ensures o.Live? && o.state.variableMode == s.variableMode
    ensures o.state.codeLine == s.codeLine && o.state.lexer == s.lexer
    ensures o.state.codeMode != s.codeMode <==> s.foundFirstBacktick && s.foundSecondBacktick
    ensures o.out != [] <==> s.foundFirstBacktick && s.foundSecondBacktick && s.codeMode
    ensures Valid(s) ==> Valid(o.state) && Pending(o.state) == (Pending(s) + 1) % 3
  {
    if !s.foundFirstBacktick then
      Live(s.(foundFirstBacktick := true), [])
    else if !s.foundSecondBacktick then
      Live(s.(foundSecondBacktick := true), [])
    else if !s.codeMode then
      Live(s.(codeMode := true, language := "", readingLanguage := true,
              foundFirstBacktick := false, foundSecondBacktick := false), [])
    else
      Live(s.(codeMode := false, foundFirstBacktick := false, foundSecondBacktick := false),
           [Separator(width, [])])
  }

  /** Whether a character belongs to a code line: in a block, past its tag. */
  predicate InCode(s: RenderState) {
    s.codeMode && !s.readingLanguage
  }

  /** Any other character, in three stages: the code line, variable mode,
      then the tag and what is shown. */
  function OtherStep(s: RenderState, c: char, width: nat): (o: Outcome)
    requires c != Backtick
    ensures o.state.codeMode == s.codeMode
    ensures CodeStage(s, c).Raised? ==> o == CodeStage(s, c)
    ensures o.Raised? && o.fault == AttributeError <==> InCode(s) && c == Newline && s.lexer.None?
    ensures CodeStage(s, c).Live? ==> (o.state.variableMode != s.variableMode <==> s.foundFirstBacktick)
    ensures o.Live? && !(s.readingLanguage && c == Newline) ==> Pending(o.state) == 0
    ensures s.readingLanguage && c == Newline ==>
      && o.state.foundFirstBacktick == s.foundFirstBacktick
      && o.state.foundSecondBacktick == s.foundSecondBacktick
  {
    match CodeStage(s, c)
    case Raised(f, t, out) => Raised(f, t, out)
    case Live(t, flushed) => Prefix(flushed, TagStage(ToggleStage(t), c, width))
  }

  /** In a code block (past its tag) a character joins the code line, and a
      newline hands the line to the highlighter, which needs a lexer. */
  function CodeStage(s: RenderState, c: char): (o: Outcome)
    ensures o.state == s.(codeLine := o.state.codeLine)
    ensures !InCode(s) ==> o == Live(s, [])
    ensures o.Raised? <==> InCode(s) && c == Newline && s.lexer.None?
    ensures o.Raised? ==> o.fault == AttributeError && o.out == []
    ensures o.out != [] ==> s.lexer.Some? && o.out == [CodeLine(s.lexer.value, s.codeLine)] && o.state.codeLine == ""
  {
    if !InCode(s) then Live(s, [])
    else if c != Newline then Live(s.(codeLine := s.codeLine + [c]), [])
    else if s.lexer.None? then Raised(AttributeError, s, [])
    else Live(s.(codeLine := ""), [CodeLine(s.lexer.value, s.codeLine)])
  }

  /** A pending backtick before any other character toggles variable mode
      once. */
  function ToggleStage(s: RenderState): (t: RenderState)
    ensures t == s.(variableMode := t.variableMode)
    ensures t.variableMode != s.variableMode <==> s.foundFirstBacktick
  {
    if s.foundFirstBacktick then s.(variableMode := !s.variableMode) else s
  }

  /** While reading a tag a newline ends it (returning before the pending
      flags are cleared) and any other character joins it; then the pending
      flags are cleared and the character is shown. */
  function TagStage(s: RenderState, c: char, width: nat): (o: Outcome)
    ensures o.state.codeMode == s.codeMode && o.state.variableMode == s.variableMode
    ensures o.state.codeLine == s.codeLine
    ensures s.readingLanguage && c == Newline ==>
      && !o.state.readingLanguage && o.state.lexer == Some(s.language)
      && o.state.foundFirstBacktick == s.foundFirstBacktick
      && o.state.foundSecondBacktick == s.foundSecondBacktick
    ensures !(s.readingLanguage && c == Newline) ==>
      && o.Live? && Pending(o.state) == 0
      && o.state.readingLanguage == s.readingLanguage && o.state.lexer == s.lexer
      && o.out == Visible(c, s.readingLanguage, s.codeMode, s.variableMode)
  {
    if s.readingLanguage && c == Newline then EndLanguage(s, width)
    else
      var t := s.(language := if s.readingLanguage then s.language + [c] else s.language,
                  foundFirstBacktick := false, foundSecondBacktick := false);
      Live(t, Visible(c, t.readingLanguage, t.codeMode, t.variableMode))
  }

  /** The newline that ends a language tag: the box header when there is a
      tag, a lexer for it, and the separator rule, whose ticks raise
      IndexError when the rule is too short to hold them (the lexer is
      assigned and reading has stopped by then). */
  function EndLanguage(s: RenderState, width: nat): (o: Outcome)
    ensures o.state == s.(lexer := Some(s.language), readingLanguage := false)
    ensures o.Raised? <==> s.language != "" && width <= 4 + |s.language|
    ensures o.Raised? ==> o.fault == IndexError && o.out == [BoxHeader(s.language)]
    ensures o.Live? ==> o.out != [] && o.out[|o.out| - 1] == Separator(width, Ticks(s.language))
    ensures s.language != "" ==> o.out != [] && o.out[0] == BoxHeader(s.language)
    ensures s.language == "" ==> o == Live(o.state, [Separator(width, [])])
  {
    var header := if s.language != "" then [BoxHeader(s.language)] else [];
    var t := s.(lexer := Some(s.language), readingLanguage := false);
    if s.language != "" && width <= 4 + |s.language| then
      Raised(IndexError, t, header)
    else
      Live(t, header + [Separator(width, Ticks(s.language))])
  }

  /** Writes `out` before whatever `o` writes. */
  function Prefix(out: seq<Event>, o: Outcome): Outcome {
    match o
    case Live(s, more) => Live(s, out + more)
    case Raised(f, s, more) => Raised(f, s, out + more)
  }

  /** One more character, unless an exception already stopped the run. */
  function Then(o: Outcome, c: char, width: nat): Outcome {
    match o
    case Raised(_, _, _) => o
    case Live(s, out) => Prefix(out, Step(s, c, width))
  }

  /** The characters of `text`, left to right, from state `s`. */
  function Run(s: RenderState, text: string, width: nat): Outcome
    decreases |text|
  {
    if text == [] then Live(s, [])
    else Then(Run(s, text[..|text| - 1], width), text[|text| - 1], width)
  }

  /** Continues a run with more text. */
  function Resume(o: Outcome, text: string, width: nat): Outcome {
    match o
    case Raised(_, _, _) => o
    case Live(s, out) => Prefix(out, Run(s, text, width))
  }

  /** A fragment of the streamed reply; `None` is a fragment without content. */
  type Fragment = Option<string>

  /** The characters a fragment contributes: a fragment without content
      counts as a newline. */
  function FragmentText(f: Fragment): string {
    match f
    case None => [Newline]
    case Some(t) => t
  }

  /** The whole reply text. */
  function Flatten(fragments: seq<Fragment>): string {
    if fragments == [] then ""
    else Flatten(fragments[..|fragments| - 1]) + FragmentText(fragments[|fragments| - 1])
  }

  /** The fragments one after another, the state carried across them. */
  function RunFragments(s: RenderState, fragments: seq<Fragment>, width: nat): Outcome {
    if fragments == [] then Live(s, [])
    else Resume(RunFragments(s, fragments[..|fragments| - 1], width),
                FragmentText(fragments[|fragments| - 1]), width)
  }

  // The text each event puts on the terminal.

  const InverseOn: string := "\U{1B}[7m"
  const InverseOff: string := "\U{1B}[0m"

  function Repeat(c: char, n: nat): (r: string)
    ensures |r| == n
    ensures forall i :: 0 <= i < n ==> r[i] == c
  {
    if n == 0 then "" else Repeat(c, n - 1) + [c]
  }

  /** The top line of the language box. */
  function BoxTop(language: string): (r: string)
    ensures |r| == |language| + 5 && r[1] == '╭' && r[|language| + 4] == '╮'
  {
    " ╭" + Repeat('─', |language| + 2) + "╮"
  }

  /** The line of the language box that holds the tag. */
  function BoxLabel(language: string): (r: string)
    ensures |r| == |language| + 5 && r[1] == '│' && r[|language| + 4] == '│'
    ensures r[3..|language| + 3] == language
  {
    " │ " + language + " │"
  }

  /** A rule of `width` columns with `┴` at the tick columns. */
  function SeparatorRow(width: nat, ticks: seq<nat>): (r: string)
    ensures |r| == width
  {
    seq(width, i => if i in ticks then '┴' else '─')
  }

  /** The terminal text of one event; `highlight` stands for the highlighter
      applied to a lexer name and a code line. */
  function EventText(e: Event, highlight: (string, string) -> string): string {
    match e
    case Plain(c) => [c]
    case Inverse(c) => InverseOn + [c] + InverseOff
    case CodeLine(lexer, line) => highlight(lexer, line)
    case BoxHeader(language) => BoxTop(language) + "\n" + BoxLabel(language) + "\n"
    case Separator(width, ticks) => SeparatorRow(width, ticks) + "\n"
  }

  /** The terminal text of a sequence of events. */
  function Terminal(out: seq<Event>, highlight: (string, string) -> string): string {
    if out == [] then ""
    else Terminal(out[..|out| - 1], highlight) + EventText(out[|out| - 1], highlight)
  }
}
