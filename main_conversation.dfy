/**
 The conversation of the stand-alone script main.py: a history of
 role/content entries that starts with the system instruction, and a copy of
 the renderer written out inside the method that streams the reply. The
 renderer's fields live on the conversation; the code line is a local of the
 streaming method, and the lexer survives from one reply to the next.

 The chat completion call is not modelled: each reply arrives as the
 sequence of fragments the stream would deliver, and every request that
 would have been sent is recorded in `requests`.
 */
module MainScript {
  import opened Wrappers
  import opened Renderer
  import opened RendererProperties
  import opened Messages

  const DefaultModel: string := "gpt-3.5-turbo"
  const DefaultMaxTokens: int := 1000

  class Conversation {
    var model: string
    const role: string
    var maxTokens: int
    var messages: seq<Entry>
    var variableMode: bool
    var codeMode: bool
    var foundFirstBacktick: bool
    var foundSecondBacktick: bool
    var readingLanguage: bool
    var language: string
    var lexer: Option<string>
    var terminal: seq<Event>
    var requests: seq<Request>

    /** The history starts with the system instruction for the role, and no
        other entry is a system entry. */
    predicate Valid()
      reads this
    {
      && |messages| >= 1
      && messages[0] == Entry(Some(SystemRole), Some(role))
      && forall i :: 1 <= i < |messages| ==> messages[i].role != Some(SystemRole)
    }

    /** The renderer's fields, with the streaming method's code line. */
    function Fields(codeLine: string): RenderState
      reads this
    {
      RenderState(variableMode, codeMode, foundFirstBacktick, foundSecondBacktick,
                  readingLanguage, language, codeLine, lexer)
    }

    /** A new conversation: its history is the system instruction alone. */
    constructor (model: string := DefaultModel, role: string := DefaultRole, maxTokens: int := DefaultMaxTokens)
      ensures this.model == model && this.role == role && this.maxTokens == maxTokens
      ensures messages == [Entry(Some(SystemRole), Some(role))]
      ensures Valid()
      ensures lexer.None? && terminal == [] && requests == []
    {
      this.model := model;
      this.role := role;
      this.maxTokens := maxTokens;
      messages := [Entry(Some(SystemRole), Some(role))];
      variableMode, codeMode := false, false;
      foundFirstBacktick, foundSecondBacktick := false, false;
      readingLanguage, language := false, "";
      lexer := None;
      terminal := [];
      requests := [];
    }

    /** A user turn: the prompt is appended, the reply is requested with the
        history that now ends with it, and the reply is appended. An exception
        while streaming leaves the prompt in the history without a reply. */
    method NewUserMessage(prompt: string, fragments: seq<Fragment>, width: nat) returns (fault: Option<Fault>)
      modifies this
      ensures var user := Entry(Some(UserRole), Some(prompt));
        && requests == old(requests) + [Request(model, maxTokens, old(messages) + [user])]
        && messages == old(messages) + [user] +
             (if fault.None? then [Entry(Some(AssistantRole), Some(Flatten(fragments)))] else [])
      ensures var o := Run(Start(old(lexer)), Flatten(fragments), width);
        && Fields(o.state.codeLine) == o.state
        && terminal == old(terminal) + o.out
        && fault == (if o.Raised? then Some(o.fault) else None)
      ensures model == old(model) && maxTokens == old(maxTokens)
      ensures old(Valid()) ==> Valid()
    {
      messages := messages + [Entry(Some(UserRole), Some(prompt))];
      var response;
      response, fault := CreateResponse(fragments, width);
      if fault.Some? {
        return;
      }
      messages := messages + [response];
    }

    /** Requests one reply and streams it. */
    method CreateResponse(fragments: seq<Fragment>, width: nat) returns (message: Entry, fault: Option<Fault>)
      modifies this`requests
      modifies this`variableMode, this`codeMode, this`foundFirstBacktick, this`foundSecondBacktick
      modifies this`readingLanguage, this`language, this`lexer, this`terminal
      ensures requests == old(requests) + [Request(model, maxTokens, messages)]
      ensures var o := Run(Start(old(lexer)), Flatten(fragments), width);
        && Fields(o.state.codeLine) == o.state
        && terminal == old(terminal) + o.out
        && fault == (if o.Raised? then Some(o.fault) else None)
      ensures fault.None? ==> message == Entry(Some(AssistantRole), Some(Flatten(fragments)))
    {
      requests := requests + [Request(model, maxTokens, messages)];
      message, fault := Stream(fragments, width);
    }

    /** The loop over the streamed reply. The renderer's flags are reset (the
        lexer is not), every fragment (a fragment without content counting as
        a newline) is collected and rendered in turn, and the reply is the
        collected text. */
    method Stream(fragments: seq<Fragment>, width: nat) returns (message: Entry, fault: Option<Fault>)
      modifies this`variableMode, this`codeMode, this`foundFirstBacktick, this`foundSecondBacktick
      modifies this`readingLanguage, this`language, this`lexer, this`terminal
      ensures var o := Run(Start(old(lexer)), Flatten(fragments), width);
        && Fields(o.state.codeLine) == o.state
        && terminal == old(terminal) + o.out
        && fault == (if o.Raised? then Some(o.fault) else None)
      ensures fault.None? ==> message == Entry(Some(AssistantRole), Some(Flatten(fragments)))
    {
      variableMode, codeMode := false, false;
      foundFirstBacktick, foundSecondBacktick := false, false;
      readingLanguage, language := false, "";
      var codeLine: string := "";
      var collected: string := "";
      ghost var start := Fields(codeLine);
      assert start == Start(old(lexer));
      // no reply when an exception stops the stream
      message, fault := Entry(None, None), None;
      ghost var out: seq<Event> := [];
      ghost var st := start;
      var i := 0;
      while i < |fragments|
        invariant 0 <= i <= |fragments|
        invariant collected == Flatten(fragments[..i])
        invariant Run(start, collected, width) == Live(st, out)
        invariant st == Fields(codeLine)
        invariant terminal == old(terminal) + out && fault.None?
      {
        var text := FragmentText(fragments[i]);
        ghost var o := Run(st, text, width);
        RunSplit(start, collected, text, width);
        FlattenNext(fragments, i);
        collected := collected + text;
        codeLine, fault := RenderText(text, codeLine, width);
        Appended(old(terminal), out, o.out);
        if fault.Some? {
          RaisedAtFragment(start, fragments, i, width);
          assert Run(start, Flatten(fragments), width) == Raised(o.fault, o.state, out + o.out);
          return;
        }
        out, st := out + o.out, o.state;
        i := i + 1;
      }
      assert fragments[..i] == fragments;
      assert Run(start, Flatten(fragments), width) == Live(st, out);
      message := Entry(Some(AssistantRole), Some(collected));
    }

    /** The inner loop over one fragment: every character in turn, until one
        raises. */
    method RenderText(text: string, codeLine: string, width: nat) returns (nextLine: string, fault: Option<Fault>)
      modifies this`variableMode, this`codeMode, this`foundFirstBacktick, this`foundSecondBacktick
      modifies this`readingLanguage, this`language, this`lexer, this`terminal
      ensures var o := Run(old(Fields(codeLine)), text, width);
        && Fields(nextLine) == o.state
        && terminal == old(terminal) + o.out
        && fault == (if o.Raised? then Some(o.fault) else None)
    {
      ghost var s0 := Fields(codeLine);
      ghost var out: seq<Event> := [];
      ghost var st := s0;
      nextLine, fault := codeLine, None;
      var j := 0;
      while j < |text|
        invariant 0 <= j <= |text|
        invariant Run(s0, text[..j], width) == Live(st, out)
        invariant st == Fields(nextLine)
        invariant terminal == old(terminal) + out && fault.None?
      {
        ghost var o := Step(st, text[j], width);
        RunTakeNext(s0, text, j, width);
        nextLine, fault := StepChar(text[j], nextLine, width);
        Appended(old(terminal), out, o.out);
        if fault.Some? {
          RaisedMidText(s0, text, j, width);
          return;
        }
        out, st := out + o.out, o.state;
        j := j + 1;
      }
      assert text[..j] == text;
    }

    /** The loop body: one character of the reply, as the transition `Step`
        describes it, including the exceptions it raises. */
    method StepChar(c: char, codeLine: string, width: nat) returns (nextLine: string, fault: Option<Fault>)
      modifies this`variableMode, this`codeMode, this`foundFirstBacktick, this`foundSecondBacktick
      modifies this`readingLanguage, this`language, this`lexer, this`terminal
      ensures var o := Step(old(Fields(codeLine)), c, width);
        && Fields(nextLine) == o.state
        && terminal == old(terminal) + o.out
        && fault == (if o.Raised? then Some(o.fault) else None)
    {
      if c != Backtick {
        nextLine, fault := OtherChar(c, codeLine, width);
      } else {
        BacktickChar(codeLine, width);
        nextLine, fault := codeLine, None;
      }
    }

    /** The loop body for any character but a backtick: the code line, variable
        mode, the language tag, then the pending flags are cleared and the
        character is shown. */
    method OtherChar(c: char, codeLine: string, width: nat) returns (nextLine: string, fault: Option<Fault>)
      requires c != Backtick
      modifies this`variableMode, this`codeMode, this`foundFirstBacktick, this`foundSecondBacktick
      modifies this`readingLanguage, this`language, this`lexer, this`terminal
      ensures var o := OtherStep(old(Fields(codeLine)), c, width);
        && Fields(nextLine) == o.state
        && terminal == old(terminal) + o.out
        && fault == (if o.Raised? then Some(o.fault) else None)
    {
      ghost var t0 := terminal;
      ghost var o1 := CodeStage(Fields(codeLine), c);
      nextLine, fault := AddToCodeLine(c, codeLine);
      if fault.Some? {
        return;
      }
      if foundFirstBacktick {
        variableMode := !variableMode;
      }
      ghost var o2 := TagStage(Fields(nextLine), c, width);
      fault := TagOrShow(c, nextLine, width);
      Appended(t0, o1.out, o2.out);
    }

    /** In a code block (past its tag) the character joins the code line; a
        newline hands the line to the highlighter, which needs a lexer. */
    method AddToCodeLine(c: char, codeLine: string) returns (nextLine: string, fault: Option<Fault>)
      modifies this`terminal
      ensures var o := CodeStage(old(Fields(codeLine)), c);
        && Fields(nextLine) == o.state
        && terminal == old(terminal) + o.out
        && fault == (if o.Raised? then Some(o.fault) else None)
    {
      nextLine, fault := codeLine, None;
      if codeMode && !readingLanguage {
        if c != Newline {
          nextLine := nextLine + [c];
        } else {
          if lexer.None? {
            // no lexer was ever assigned to highlight with
            fault := Some(AttributeError);
            return;
          }
          terminal := terminal + [CodeLine(lexer.value, nextLine)];
          nextLine := "";
        }
      }
    }

    /** While reading a tag a newline ends it and any other character joins
        it; then the pending flags are cleared and the character is shown. */
    method TagOrShow(c: char, ghost codeLine: string, width: nat) returns (fault: Option<Fault>)
      modifies this`variableMode, this`codeMode, this`foundFirstBacktick, this`foundSecondBacktick
      modifies this`readingLanguage, this`language, this`lexer, this`terminal
      ensures var o := TagStage(old(Fields(codeLine)), c, width);
        && Fields(codeLine) == o.state
        && terminal == old(terminal) + o.out
        && fault == (if o.Raised? then Some(o.fault) else None)
    {
      fault := None;
      if readingLanguage {
        if c == Newline {
          fault := EndLanguageTag(codeLine, width);
          return;
        }
        language := language + [c];
      }
      foundFirstBacktick := false;
      foundSecondBacktick := false;
      PrintChar(c);
    }

    /** The newline that ends a language tag: the box, the lexer, and the
        separator rule, whose two ticks are written by index into a rule of
        the terminal's width. */
    method EndLanguageTag(ghost codeLine: string, width: nat) returns (fault: Option<Fault>)
      modifies this`variableMode, this`codeMode, this`foundFirstBacktick, this`foundSecondBacktick
      modifies this`readingLanguage, this`language, this`lexer, this`terminal
      ensures var o := EndLanguage(old(Fields(codeLine)), width);
        && Fields(codeLine) == o.state
        && terminal == old(terminal) + o.out
        && fault == (if o.Raised? then Some(o.fault) else None)
    {
      fault := None;
      if language != "" {
        terminal := terminal + [BoxHeader(language)];
      }
      lexer := Some(language);
      readingLanguage := false;
      var ticks: seq<nat> := [];
      if language != "" {
        if width <= 1 {
          fault := Some(IndexError);
          return;
        }
        ticks := ticks + [1];
        if width <= 4 + |language| {
          fault := Some(IndexError);
          return;
        }
        ticks := ticks + [4 + |language|];
      }
      assert ticks == Ticks(language);
      terminal := terminal + [Separator(width, ticks)];
    }

    /** The loop body for a backtick: the first and second are held back, the
        third toggles code mode, opening a block or closing it with a rule. */
    method BacktickChar(ghost codeLine: string, width: nat)
      modifies this`variableMode, this`codeMode, this`foundFirstBacktick, this`foundSecondBacktick
      modifies this`readingLanguage, this`language, this`lexer, this`terminal
      ensures Fields(codeLine) == BacktickStep(old(Fields(codeLine)), width).state
      ensures terminal == old(terminal) + BacktickStep(old(Fields(codeLine)), width).out
    {
      if !foundFirstBacktick {
        foundFirstBacktick := true;
        PrintChar(Backtick);
        return;
      }
      if !foundSecondBacktick {
        foundSecondBacktick := true;
        PrintChar(Backtick);
        return;
      }
      codeMode := !codeMode;
      if codeMode {
        language := "";
        readingLanguage := true;
      } else {
        terminal := terminal + [Separator(width, [])];
      }
      PrintChar(Backtick);
      foundFirstBacktick := false;
      foundSecondBacktick := false;
    }

    /** `_print_char`: a backtick, and anything inside a tag or a code block,
        is not shown; any other character is shown, inverse-video in variable
        mode. */
    method PrintChar(c: char)
      modifies this`terminal
      ensures terminal == old(terminal) + Visible(c, readingLanguage, codeMode, variableMode)
    {
      if c == Backtick {
        return;
      }
      if readingLanguage {
        return;
      }
      if codeMode {
        return;
      }
      if variableMode {
        terminal := terminal + [Inverse(c)];
        return;
      }
      terminal := terminal + [Plain(c)];
    }

    /** `clear`: deletes every entry after the first, which stays as it was. */
    method Clear()
      modifies this`messages
      ensures messages == old(messages)[..if |old(messages)| == 0 then 0 else 1]
      ensures old(Valid()) ==> Valid() && messages == [Entry(Some(SystemRole), Some(role))]
    {
      if |messages| > 1 {
        messages := messages[..1];
      }
    }

    /** The `model` setter: any value, nothing else changes. */
    method SetModel(value: string)
      modifies this`model
      ensures model == value
    {
      model := value;
    }

    /** The `max_tokens` setter: any value, nothing else changes. */
    method SetMaxTokens(value: int)
      modifies this`maxTokens
      ensures maxTokens == value
    {
      maxTokens := value;
    }
  }
}
