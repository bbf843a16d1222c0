# Terminal chat client: streaming renderer and conversations

This project models the core of a terminal client for a chat-completion API.
The client keeps a conversation history and sends it with each user prompt.
It streams the reply fragment by fragment and renders it one character at a time:
- a fenced code block (three backticks, an optional language tag and a newline) gets a box around its tag and separator rules;
- its lines go to a syntax highlighter one line at a time;
- text between single backticks is shown in inverse video;
- backticks themselves are never shown.

The renderer exists twice in the source:
- as `Response._print_char` in message.py, called from the `Response` constructor's loop;
- written out inline in `Conversation._create_response` in main.py.

Both are proved against one pure transition, `Renderer.Step`. It is lifted to strings (`Renderer.Run`) and to the fragment stream (`Renderer.RunFragments`).

The terminal is modelled as a sequence of abstract events:
- a plain character;
- an inverse-video character;
- a code line handed to the highlighter with its lexer name;
- the language box;
- a separator rule with its tick columns.

`Renderer.Terminal` turns events into text. The highlighter is a function parameter there.

The Python exceptions the renderer can raise are modelled as outcomes, `Renderer.Outcome.Raised`:
- `IndexError` comes from writing the rule's tick past the end of a rule narrower than the tag's box;
- `AttributeError` comes from highlighting before any lexer was assigned.

The classes keep their source form. `Messages.Response`, `MainScript.Conversation` and `Conversations.Conversation` have the source's fields, and their methods update them in place. Each method is proved against the matching stage of the pure transition:
- `CodeStage`: the code line;
- `ToggleStage`: variable mode;
- `TagStage` / `EndLanguage`: the language tag and what is shown;
- `BacktickStep`: a backtick.

The loops carry invariants tying the fields to `Run` over the text read so far.

Modules:
- `Wrappers`: `Option`.
- `Renderer` (renderer.dfy): the state, events, faults, the transition and its liftings, and the terminal text.
- `RendererProperties` (renderer_properties.dfy): general lemmas about the renderer.
- `RendererScenarios` (renderer_scenarios.dfy): lemmas about concrete reply shapes, including the behaviours listed below.
- `Messages` (messages.dfy): message.py's `Message`, `Prompt` and `Response`.
- `MainScript` (main_conversation.dfy): main.py's `Conversation`.
- `Conversations` (conversation.dfy): chatgpterminal/conversation.py's `Conversation`.

### Behaviours of the code worth knowing

- **Two pending backticks toggle variable mode once.** A non-backtick character after one or two pending backticks toggles variable mode once, because the code tests only the first flag (message.py:122-124). So "``" followed by a space inverts variable mode (`RendererProperties.PendingBackticksToggleOnce`).
- **The newline that ends a language tag keeps the pending flags.** That newline returns before the flags are cleared (message.py:143). So "```" + tag + "``\n`" closes the block that was just opened (`RendererScenarios.FenceClosedByStrayBackticks`).
- **Code mode does not follow the parity of triple backticks in general.** The previous point breaks it. Counting holds for a run of backticks alone: n backticks toggle code mode n div 3 times and leave n mod 3 pending (`RendererProperties.BacktickRun`).
- **Variable mode can be on inside a code block.** A backtick pending before a newline in a code block toggles variable mode. That mode survives the block (`RendererScenarios.VariableModeSurvivesCodeBlock`).
- **The tag-reading flag can stay set outside a code block.** "``````" opens and closes a block without reading a tag. The stale tag-reading flag then swallows the next line as a language tag (`RendererScenarios.StaleReadingLanguage`, `RendererScenarios.StaleTagSwallowsText`).
- **The stored content is exactly the text received.** A fragment whose content cannot be read counts as a newline, both in the rendering and in the stored content (message.py:70-73).

## Model

| member | source | states |
|---|---|---|
| Renderer.Visible | message.py:96-107 | nothing is shown exactly when the character is a backtick, a tag is being read or a code block is open; otherwise the character is shown once, inverse when variable mode is on |
| Renderer.Step | message.py:95-174 | from a valid state, one character raises exactly when it is the newline ending a non-empty tag too wide for the terminal (IndexError, after the box header); otherwise the new state is valid and the tag grows by at most one character |
| Renderer.Start | message.py:56-65 | a fresh response starts valid with nothing pending, outside any block and tag, in plain mode, with an empty tag and code line, and keeps the lexer it was given (main.py:47-56 resets the same fields) |
| Renderer.OtherStep | message.py:109-150 | the stages run in source order, `CodeStage`, then `ToggleStage`, then `TagStage`, and an AttributeError from the first stops the rest; code mode never changes; AttributeError is raised exactly on a newline in a block without a lexer; otherwise variable mode toggles exactly when a backtick is pending; the pending flags are cleared except by the newline ending a tag, which keeps them; the lemmas `RendererProperties.PendingBackticksToggleOnce`, `TagNewlineKeepsPending`, `CodeLineBuffered` and `LanguageRead` state its effect on runs (main.py:69-110 is the same code inline) |
| Renderer.BacktickStep | message.py:152-174 | a backtick never raises and writes nothing but the closing rule; it toggles code mode exactly when two backticks are pending, writes a rule exactly when that closes a block, leaves variable mode, code line and lexer alone, and from a valid state advances the pending count modulo 3 |
| Renderer.CodeStage | message.py:111-120 | only the code line changes; outside a block (or while reading a tag) nothing happens; it raises exactly on a newline in a block without a lexer (AttributeError, nothing written); anything written is the buffered line handed to the highlighter with the lexer, after which the buffer is empty |
| Renderer.ToggleStage | message.py:122-124 | only variable mode changes, and it changes exactly when a backtick is pending |
| Renderer.TagStage | message.py:126-150 | code mode, variable mode and code line are kept; the newline ending a tag stops reading, assigns the lexer from the tag and keeps the pending flags; any other character clears the pending flags and writes exactly what `Visible` shows |
| Renderer.EndLanguage | message.py:128-143 | reading stops and the lexer is the tag's; it raises exactly when the tag is non-empty and the rule too narrow for its second tick (IndexError, after the box header); otherwise the box (for a non-empty tag) is followed by the rule with ticks under the box corners, and an empty tag gives a plain rule alone |
| Renderer.Run | message.py:75-77 | the characters in order with state carried along; its properties are `RendererProperties.RunSplit`, `RaisedIsFinal` and `RunValid` |
| Renderer.RunFragments | message.py:69-78 | the fragments in order with state carried across them; its properties are `RendererProperties.RunFragmentsFlatten` and `SplitIndependence` |
| Renderer.Flatten | message.py:69-80 | the collected reply text; `RendererProperties.FlattenSplit` and `Messages.Response.constructor` state it |
| Renderer.FragmentText | message.py:70-74 | a fragment's characters, a newline when its content cannot be read; used by `Flatten` and `RunFragments` |
| Renderer.EventText | message.py:105-170 | the text each print puts on the terminal: the character (107), inverse video (105), the highlighted line (119), the box (130-131), the rules (142, 170); `RendererProperties.PlainShown` states the plain case |
| Renderer.Terminal | message.py:105-170 | all events' text in order; `RendererProperties.PlainShown` and `PlainTextPrinted` state it for plain text |
| Renderer.BoxTop | message.py:130 | the box's top line is the tag's width plus 5, with its corners at columns 1 and tag width + 4 |
| Renderer.BoxLabel | message.py:131 | the box's tag line is as wide as its top line, with its borders under those corners and the tag between them |
| Renderer.Ticks | message.py:139-141 | no ticks for an empty tag; for a tag, two tick columns, each inside the box's top line and under one of its corners |
| Renderer.Repeat | message.py:130 | the repeated string has the given length and consists of the given character |
| Renderer.SeparatorRow | message.py:137-142 | the rule is exactly as wide as the terminal |
| RendererProperties.RunSplit | message.py:69-78 | running two texts one after the other is running their concatenation |
| RendererProperties.RaisedIsFinal | message.py:69-78 | once an exception is raised, no further text changes the outcome |
| RendererProperties.RunFragmentsFlatten | message.py:69-78 | rendering the fragments one by one with state carried across them is rendering their concatenated text |
| RendererProperties.SplitIndependence | message.py:69-78 | two fragmentations of the same text render identically: state, output and fault |
| RendererProperties.FlattenSplit | message.py:69-76 | the collected text of two fragment sequences is the concatenation of their texts |
| RendererProperties.RunValid | message.py:95-174 | from a valid state the state stays valid: a second pending backtick implies a first, so the two flags count 0..2 pending backticks, and a lexer exists whenever a code line can be highlighted; the tag grows by at most the text's length; the only exception is IndexError, and it cannot occur when the terminal is wider than any tag the text can form |
| RendererProperties.BacktickStepCounts | message.py:152-174 | a backtick never raises and is never shown; it advances the pending count modulo 3, toggles code mode on the third, and writes a rule only when closing a block; variable mode, code line and lexer are unchanged |
| RendererProperties.BacktickRun | message.py:152-174 | a run of n backticks leaves (pending + n) mod 3 pending and toggles code mode (pending + n) div 3 times |
| RendererProperties.ShortBacktickRun | message.py:152-160 | backticks that do not complete a triple only set the pending flags and write nothing |
| RendererProperties.Fence | message.py:162-174 | three backticks with none pending open a block and start reading its tag, or close it with a full-width rule |
| RendererProperties.PendingBackticksToggleOnce | message.py:109-150 | one or two pending backticks before a non-backtick character toggle variable mode once and clear the pending count; outside blocks the character is then shown in the new mode |
| RendererProperties.TagNewlineKeepsPending | message.py:122-143 | one or two backticks before the newline ending a tag toggle variable mode but stay pending; reading stops and the lexer is resolved from the tag |
| RendererProperties.PlainTextVerbatim | message.py:96-107 | text without backticks outside blocks is shown character by character, in inverse video when variable mode is on, with the state unchanged |
| RendererProperties.PlainShown | message.py:107 | plain character events put exactly those characters on the terminal |
| RendererProperties.PlainTextPrinted | message.py:95-150 | outside blocks and variable mode, a text without backticks puts exactly itself on the terminal |
| RendererProperties.CodeLineBuffered | message.py:111-114 | inside a block, characters of a line are buffered in the code line and nothing is shown |
| RendererProperties.CodeLineFlushed | message.py:111-120 | the newline ending a code line hands the whole buffered line to the highlighter with the block's lexer, then empties the buffer |
| RendererProperties.LanguageRead | message.py:126-145 | while reading a tag, characters other than a newline or backtick join the tag and nothing is shown |
| RendererProperties.TagLine | message.py:126-143 | the newline ending a tag writes the box (for a non-empty tag), resolves the lexer from the tag and writes a rule with ticks under the box corners; it raises IndexError after the box when the rule is too narrow |
| RendererProperties.OpenFence | message.py:109-174 | "```" + tag + newline opens a block with that tag's lexer and writes the box and the ticked rule, or raises IndexError when the terminal is too narrow |
| RendererProperties.CloseFence | message.py:162-171 | three backticks inside a block past its tag close it with a plain full-width rule |
| RendererScenarios.BoxAligned | message.py:129-142 | the two box lines have equal width, the tag sits inside the box, and the rule's two ticks fall under the box's corners |
| RendererScenarios.StaleReadingLanguage | message.py:162-174 | "``````" leaves code mode off but the tag-reading flag on, after one rule |
| RendererScenarios.StaleTagSwallowsText | message.py:126-145 | after "``````" the next line is read as a language tag: it is not shown, and becomes a box and the lexer |
| RendererScenarios.FenceClosedByStrayBackticks | message.py:122-174 | two backticks before the tag's newline stay pending, so one more backtick closes the block just opened |
| RendererScenarios.VariableModeSurvivesCodeBlock | message.py:109-150 | a backtick before a newline inside a block turns variable mode on; the text after the block is shown in inverse video |
| RendererScenarios.PlainRun | message.py:96-107 | text without backticks outside blocks is shown as is, in the current mode |
| RendererScenarios.ToggledText | message.py:122-124 | a single backtick before text flips the mode in which the text is shown |
| RendererScenarios.InlineSpanText | message.py:109-150 | text between single backticks is shown in inverse video; the text around it is plain; the state returns to where it was |
| RendererScenarios.InlineSpanReply | message.py:69-78 | the same holds for a reply whose backticks arrive at fragment edges |
| RendererScenarios.CodeBlockText | message.py:109-174 | a fenced block with a tag and one line renders as box, ticked rule, highlighted line and closing rule, with nothing pending |
| RendererScenarios.CodeBlockReply | message.py:69-78 | the same block split across three fragments renders the same |
| Messages.NewMessage | message.py:12-23 | neither role nor content gives the system instruction; otherwise role and content are kept as given |
| Messages.Prompt | message.py:37-39 | a prompt is a user message with the prompt text, never the system message |
| Messages.Response.constructor | message.py:46-80 | the request holds model, max tokens and messages; the fields and terminal are the renderer run over the whole reply text from reset flags and no lexer; the exception raised, if any, is recorded; the content is the collected reply with the assistant role |
| Messages.Response.RenderText | message.py:75-78 | the inner loop over one fragment renders it as `Run` does, stopping at the first exception |
| Messages.Response.Print | message.py:96-107 | `_print` appends exactly what `Visible` shows |
| Messages.Response.PrintChar | message.py:95-174 | `_print_char` changes the fields and terminal as `Step` does and reports its exception |
| Messages.Response.PrintOther | message.py:109-150 | a non-backtick character changes the fields as the staged transition does |
| Messages.Response.AddToCodeLine | message.py:111-120 | the code-line stage: buffering, or flushing to the highlighter, or AttributeError without a lexer |
| Messages.Response.TagOrShow | message.py:126-150 | the tag stage: tag growth or its end, flags cleared, character shown |
| Messages.Response.EndLanguageTag | message.py:128-143 | the box, lexer and ticked rule as `EndLanguage` states, IndexError on a too-narrow rule |
| Messages.Response.PrintBacktick | message.py:152-174 | a backtick changes the fields and terminal as `BacktickStep` does |
| MainScript.Conversation.constructor | main.py:18-29 | the history is the system instruction for the given role; nothing has been rendered or requested |
| MainScript.Conversation.NewUserMessage | main.py:32-35 | the request carries the history ending with the prompt; the reply, the collected text with the assistant role, follows the prompt unless streaming raised; the terminal shows the renderer run over the reply from the lexer kept from the last reply; the history stays valid |
| MainScript.Conversation.CreateResponse | main.py:38-142 | one request is recorded with the current history; the stream is rendered as `Run` does |
| MainScript.Conversation.Stream | main.py:47-142 | the flags are reset (not the lexer); the fields, local code line and terminal end as `Run` over the concatenated fragments leaves them; the reply is the collected text |
| MainScript.Conversation.RenderText | main.py:66-134 | the inner loop over one fragment renders it as `Run` does |
| MainScript.Conversation.StepChar | main.py:69-134 | the inline loop body changes fields, code line and terminal as `Step` does: the inline copy equals `_print_char` in message.py |
| MainScript.Conversation.OtherChar | main.py:69-110 | the non-backtick branch follows the staged transition |
| MainScript.Conversation.AddToCodeLine | main.py:71-79 | the code-line stage on the local code line |
| MainScript.Conversation.TagOrShow | main.py:85-110 | the tag stage |
| MainScript.Conversation.EndLanguageTag | main.py:88-103 | the tag's end as `EndLanguage` states |
| MainScript.Conversation.BacktickChar | main.py:112-134 | the backtick branch as `BacktickStep` states |
| MainScript.Conversation.PrintChar | main.py:157-169 | appends exactly what `Visible` shows |
| MainScript.Conversation.Clear | main.py:198-199 | only the first entry is kept; a valid history becomes the system instruction alone |
| MainScript.Conversation.SetModel | main.py:208-210 | the model becomes the value |
| MainScript.Conversation.SetMaxTokens | main.py:216-218 | max tokens becomes the value |
| Conversations.ToEntry | chatgpterminal/conversation.py:37 | the entry sent for one message: its role and content; `Conversations.Entries` states this for every message of the history |
| Conversations.Entries | chatgpterminal/conversation.py:34-38 | one entry per message, in order, with that message's role and content |
| Conversations.EntriesSnoc | chatgpterminal/conversation.py:34-38 | one more message adds its entry at the end |
| Conversations.Conversation.constructor | chatgpterminal/conversation.py:14-24 | the history is the system message alone, made from a message with neither role nor content |
| Conversations.Conversation.NewUserMessage | chatgpterminal/conversation.py:27-31 | the request carries the entries of the history ending with the prompt; the response renders the reply as `Run` does; the history gains the prompt and, unless streaming raised, the assistant reply; the history stays valid |
| Conversations.Conversation.Ask | chatgpterminal/conversation.py:28-29 | the prompt joins the history; the response is created with the entries of the history ending with the prompt, and renders the reply as `Run` does |
| Conversations.Conversation.AsList | chatgpterminal/conversation.py:34-38 | the loop builds exactly `Entries` of the history |
| Conversations.Conversation.Clear | chatgpterminal/conversation.py:44-45 | only the first message is kept; a valid history becomes the system message alone |
| Conversations.Conversation.ChangeLastMessage | chatgpterminal/conversation.py:50-51 | the last two messages are removed, or all of them when there are fewer than two; with at least three, a valid history stays valid |
| Conversations.Conversation.SetModel | chatgpterminal/conversation.py:57-59 | the model becomes the value |
| Conversations.Conversation.SetMaxTokens | chatgpterminal/conversation.py:65-67 | max tokens becomes the value |

## Left out

- The chat-completion call, credentials and organisation come from the environment and the network. They are not modelled: each reply is a parameter, the fragments the stream would deliver. The request that would be sent is recorded (`Response.request`, `MainScript.Conversation.requests`).
- A fragment without content (`Renderer.Fragment`'s `None`) is modelled as the `except` branch's newline (message.py:70-73, main.py:61-64): reading the content raised. A fragment whose content exists but is `None` is not representable. The source raises TypeError on it at `[*content]` (message.py:74, main.py:65), outside the `try`, which ends the reply; the model does not capture that path.
- Syntax highlighting (pygments) is left out:
  - the lexer is modelled by the name of the language it was resolved from;
  - `guess_lexer("")` is modelled by that same name, the empty or unknown tag;
  - the highlighter is a function parameter of `Renderer.Terminal`.
- The terminal width is a parameter. It is fixed for a whole reply, whereas the source queries it at every rule.
- Printing and `sys.stdout.flush` are modelled as appending events to a `terminal` sequence.
- `Messages.Response.constructor` records an exception raised while rendering in `raised`; the Python constructor would propagate it. Such a response has no role or content. `NewUserMessage` then leaves the reply out of the history, where in Python the exception escapes before anything is appended.
- The `main.py` CLI is not modelled: `system_dialogue`, `main` and the reading of `sys_dialogue` files are I/O around the core. `_print_message` (main.py:172-192) is never called by the streaming path.
- `Conversation.save` and `_debug_messages` are not modelled: one does nothing and the other only prints.
- `Prompt.__str__` is not modelled: it only prints.
- The `Message.content` setter is not modelled: `Message` is a value here and the core never assigns content.
- `_toggle_variable_mode`, `_toggle_code_mode` and `_set_language` are inlined as field updates. `_set_language` is never called.
- `MainScript.Conversation.SetMaxTokens` and `Conversations.Conversation.SetMaxTokens` take an integer. The CLI passes the raw input string, which is not modelled.
- chatgpterminal/message.py is not part of this model: chatgpterminal/conversation.py imports it, and the top-level message.py stands in for it.
- `Conversations.Conversation.ChangeLastMessage` on a history of one or two messages deletes the system message too, as the source does. Validity is therefore promised only from three messages on.
- `RendererProperties.ShortBacktickRun` states "no output" only for runs that do not complete a triple. For longer runs, `RendererProperties.BacktickStepCounts` gives each backtick's output and `RendererProperties.BacktickRun` gives the counts.
- Python strings are modelled as sequences of characters, with `len` as sequence length. Terminal cell widths of wide characters are not modelled.
