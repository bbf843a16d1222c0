/**
 The messages of a conversation (message.py): a message with a role and a
 content, the user's prompt, and the assistant's response, whose constructor
 streams the reply through the renderer character by character.

 The chat completion call is not modelled: the reply arrives as a parameter,
 the sequence of fragments the stream would deliver, and the request that
 would have been sent is kept in the response.
 */
module Messages {
  import opened Wrappers
  import opened Renderer
  import opened RendererProperties

  const SystemRole: string := "system"
  const UserRole: string := "user"
  const AssistantRole: string := "assistant"

  /** The system instruction a conversation starts with. */
  const DefaultRole: string := "You are a helpful assistant."

  /** A message: its role and its content, either of which may be `None`. */
  datatype Message = Message(role: Option<string>, content: Option<string>)

  /** A message as it is sent, the dictionary of its role and content. */
  datatype Entry = Entry(role: Option<string>, content: Option<string>)

  /** What a response asks the chat completion endpoint for. */
  datatype Request = Request(model: string, maxTokens: int, messages: seq<Entry>)

  /** The message a conversation starts with. */
  const SystemMessage: Message := Message(Some(SystemRole), Some(DefaultRole))

  /** `Message(role, content)`: given neither, the message is the system
      instruction; given either, both are kept as they are. */
  function NewMessage(role: Option<string>, content: Option<string>): (m: Message)
    ensures role.None? && content.None? ==> m == SystemMessage
    ensures role.Some? || content.Some? ==> m.role == role && m.content == content
    ensures m.role.Some? || m.content.Some?
  {
    if role.None? && content.None? then SystemMessage else Message(role, content)
  }

  /** A prompt is a user message holding the prompt text. */
  function Prompt(content: string): (m: Message)
    ensures m.role == Some(UserRole) && m.content == Some(content)
    ensures m != SystemMessage
  {
    NewMessage(Some(UserRole), Some(content))
  }

  /** An assistant response. Its fields are the renderer's; `terminal` is
      what it has written, `raised` the exception that stopped it, if any
      (the Python constructor would propagate it and never finish, so a
      response with `raised` set has neither role nor content). */
  class Response {
    const request: Request
    const width: nat
    var variableMode: bool
    var codeMode: bool
    var foundFirstBacktick: bool
    var foundSecondBacktick: bool
    var readingLanguage: bool
    var language: string
    var currentCodeLine: string
    var lexer: Option<string>
    var terminal: seq<Event>
    var raised: Option<Fault>
    var role: Option<string>
    var content: Option<string>

    /** The renderer's fields as one state. */
    function State(): RenderState
      reads this
    {
      RenderState(variableMode, codeMode, foundFirstBacktick, foundSecondBacktick,
                  readingLanguage, language, currentCodeLine, lexer)
    }

    /** Requests the reply and streams it: every fragment (a fragment without
        content counting as a newline) is collected and rendered in turn. The outcome is the renderer run over the whole reply
        text, and the content is that text. */
    constructor (model: string, maxTokens: int, messages: seq<Entry>, fragments: seq<Fragment>, width: nat)
      ensures request == Request(model, maxTokens, messages) && this.width == width
      ensures var o := Run(Start(None), Flatten(fragments), width);
        && State() == o.state
        && terminal == o.out
        && raised == (if o.Raised? then Some(o.fault) else None)
      ensures raised.None? ==> role == Some(AssistantRole) && content == Some(Flatten(fragments))
      ensures raised.Some? ==> role.None? && content.None?
    {
      request := Request(model, maxTokens, messages);
      this.width := width;
      variableMode, codeMode := false, false;
      foundFirstBacktick, foundSecondBacktick := false, false;
      readingLanguage, language := false, "";
      currentCodeLine := "";
      lexer := None;
      terminal := [];
      raised := None;
      role, content := None, None;
      new;
      var collected: string := "";
      ghost var st := State();
      var i := 0;
      while i < |fragments|
        invariant 0 <= i <= |fragments|
        invariant collected == Flatten(fragments[..i])
        invariant Run(Start(None), collected, width) == Live(st, terminal)
        invariant st == State()
        invariant raised.None? && role.None? && content.None?
      {
        var text := FragmentText(fragments[i]);
        ghost var o := Run(st, text, width);
        RunSplit(Start(None), collected, text, width);
        FlattenNext(fragments, i);
        collected := collected + text;
        var fault := RenderText(text);
        if fault.Some? {
          // the exception propagates out of the constructor
          raised := fault;
          RaisedAtFragment(Start(None), fragments, i, width);
          assert Run(Start(None), Flatten(fragments), width) == Raised(o.fault, o.state, terminal);
          return;
        }
        st := o.state;
        i := i + 1;
      }
      assert fragments[..i] == fragments;
      role, content := Some(AssistantRole), Some(collected);
    }

    /** The inner loop over one fragment: every character in turn, until one
        raises. */
    method RenderText(text: string) returns (fault: Option<Fault>)
      modifies this`variableMode, this`codeMode, this`foundFirstBacktick, this`foundSecondBacktick
      modifies this`readingLanguage, this`language, this`currentCodeLine, this`lexer, this`terminal
      ensures var o := Run(old(State()), text, width);
        && State() == o.state
        && terminal == old(terminal) + o.out
        && fault == (if o.Raised? then Some(o.fault) else None)
    {
      ghost var s0 := State();
      ghost var out: seq<Event> := [];
      ghost var st := s0;
      fault := None;
      var j := 0;
      while j < |text|
        invariant 0 <= j <= |text|
        invariant Run(s0, text[..j], width) == Live(st, out)
        invariant st == State()
        invariant terminal == old(terminal) + out && fault.None?
      {
        ghost var o := Step(st, text[j], width);
        RunTakeNext(s0, text, j, width);
        fault := PrintChar(text[j]);
        Appended(old(terminal), out, o.out);
        if fault.Some? {
          RaisedMidText(s0, text, j, width);
          return;
        }
        out, st := out + o.out, o.state;
        j := j + 1;
      }
      assert text[..j] == text;
    }

    /** `_print`: a backtick, and anything inside a tag or a code block, is
        not shown; any other character is shown, inverse-video in variable
        mode. */
    method Print(c: char)
      modifies this`terminal
      ensures terminal == old(terminal) + Visible(c, readingLanguage, codeMode, variableMode)
    {
      if c == Backtick {
        return;
      }
      if readingLanguage {
        return;
      }
      if codeMode {
        return;
      }
      if variableMode {
        terminal := terminal + [Inverse(c)];
        return;
      }
      terminal := terminal + [Plain(c)];
    }

    /** `_print_char`: one character of the reply, as the transition `Step`
        describes it, including the exceptions it raises. */
    method PrintChar(c: char) returns (fault: Option<Fault>)
      modifies this`variableMode, this`codeMode, this`foundFirstBacktick, this`foundSecondBacktick
      modifies this`readingLanguage, this`language, this`currentCodeLine, this`lexer, this`terminal
      ensures var o := Step(old(State()), c, width);
        && State() == o.state
        && terminal == old(terminal) + o.out
        && fault == (if o.Raised? then Some(o.fault) else None)
    {
      if c != Backtick {
        fault := PrintOther(c);
      } else {
        PrintBacktick();
        fault := None;
      }
    }

    /** Any character but a backtick: the code line, variable mode, the
        language tag, then the pending flags are cleared and the character
        is shown. */
    method PrintOther(c: char) returns (fault: Option<Fault>)
      requires c != Backtick
      modifies this`variableMode, this`codeMode, this`foundFirstBacktick, this`foundSecondBacktick
      modifies this`readingLanguage, this`language, this`currentCodeLine, this`lexer, this`terminal
      ensures var o := OtherStep(old(State()), c, width);
        && State() == o.state
        && terminal == old(terminal) + o.out
        && fault == (if o.Raised? then Some(o.fault) else None)
    {
      ghost var s0, t0 := State(), terminal;
      ghost var o1 := CodeStage(s0, c);
      fault := AddToCodeLine(c);
      if fault.Some? {
        return;
      }
      if foundFirstBacktick {
        variableMode := !variableMode;
      }
      ghost var o2 := TagStage(State(), c, width);
      fault := TagOrShow(c);
      Appended(t0, o1.out, o2.out);
    }

    /** In a code block (past its tag) the character joins the code line; a
        newline hands the line to the highlighter, which needs a lexer. */
    method AddToCodeLine(c: char) returns (fault: Option<Fault>)
      modifies this`currentCodeLine, this`terminal
      ensures var o := CodeStage(old(State()), c);
        && State() == o.state
        && terminal == old(terminal) + o.out
        && fault == (if o.Raised? then Some(o.fault) else None)
    {
      fault := None;
      if codeMode && !readingLanguage {
        if c != Newline {
          currentCodeLine := currentCodeLine + [c];
        } else {
          if lexer.None? {
            // no lexer was ever assigned to highlight with
            fault := Some(AttributeError);
            return;
          }
          terminal := terminal + [CodeLine(lexer.value, currentCodeLine)];
          currentCodeLine := "";
        }
      }
    }

    /** While reading a tag a newline ends it and any other character joins
        it; then the pending flags are cleared and the character is shown. */
    method TagOrShow(c: char) returns (fault: Option<Fault>)
      modifies this`variableMode, this`codeMode, this`foundFirstBacktick, this`foundSecondBacktick
      modifies this`readingLanguage, this`language, this`currentCodeLine, this`lexer, this`terminal
      ensures var o := TagStage(old(State()), c, width);
        && State() == o.state
        && terminal == old(terminal) + o.out
        && fault == (if o.Raised? then Some(o.fault) else None)
    {
      fault := None;
      if readingLanguage {
        if c == Newline {
          fault := EndLanguageTag();
          return;
        }
        language := language + [c];
      }
      foundFirstBacktick := false;
      foundSecondBacktick := false;
      Print(c);
    }

    /** The newline that ends a language tag: the box, the lexer, and the
        separator rule, whose two ticks are written by index into a rule of
        the terminal's width. */
    method EndLanguageTag() returns (fault: Option<Fault>)
      modifies this`variableMode, this`codeMode, this`foundFirstBacktick, this`foundSecondBacktick
      modifies this`readingLanguage, this`language, this`currentCodeLine, this`lexer, this`terminal
      ensures var o := EndLanguage(old(State()), width);
        && State() == o.state
        && terminal == old(terminal) + o.out
        && fault == (if o.Raised? then Some(o.fault) else None)
    {
      fault := None;
      if language != "" {
        terminal := terminal + [BoxHeader(language)];
      }
      lexer := Some(language);
      readingLanguage := false;
      var ticks: seq<nat> := [];
      if language != "" {
        if width <= 1 {
          fault := Some(IndexError);
          return;
        }
        ticks := ticks + [1];
        if width <= 4 + |language| {
          fault := Some(IndexError);
          return;
        }
        ticks := ticks + [4 + |language|];
      }
      assert ticks == Ticks(language);
      terminal := terminal + [Separator(width, ticks)];
    }

    /** A backtick: the first and second are held back, the third toggles
        code mode, opening a block or closing it with a rule. */
    method PrintBacktick()
      modifies this`variableMode, this`codeMode, this`foundFirstBacktick, this`foundSecondBacktick
      modifies this`readingLanguage, this`language, this`currentCodeLine, this`lexer, this`terminal
      ensures State() == BacktickStep(old(State()), width).state
      ensures terminal == old(terminal) + BacktickStep(old(State()), width).out
    {
      if !foundFirstBacktick {
        foundFirstBacktick := true;
        Print(Backtick);
        return;
      }
      if !foundSecondBacktick {
        foundSecondBacktick := true;
        Print(Backtick);
        return;
      }
      codeMode := !codeMode;
      if codeMode {
        language := "";
        readingLanguage := true;
      } else {
        terminal := terminal + [Separator(width, [])];
      }
      Print(Backtick);
      foundFirstBacktick := false;
      foundSecondBacktick := false;
    }
  }
}
