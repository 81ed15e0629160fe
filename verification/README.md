# Planck: a verified model

Planck is a ClojureScript REPL. This project models the parts of it that carry real state and
proves what they keep over every input and every run.

- **Line editor** (`terminal.dfy`, `scrolling.dfy`, `escapes.dfy`, `line_text.dfy`, `line_editor.dfy`,
  `history.dfy`, `line_keys.dfy`). A terminal (grid, cursor, deferred wrap, scrolling, the control
  functions of ECMA-48 sections 8.3.19, 8.3.20, 8.3.22 and 8.3.41) receives the bytes of each refresh.
  A line may be refreshed anywhere on a screen that can hold it, also where that scrolls the screen.
  Main results:
  `LineEditor.LineState.RefreshMultiLine`, `LineKeys.EditLoop`, `LineKeys.StrokesMean`,
  `LineText.EditDoes`, `LineHistory.HistoryIsLastLines`,
  `LineHistory.BackAndForth`.
- **EDN reader** (`edn.dfy`, `edn_trees.dfy`, `edn_forms.dfy`, `edn_reader.dfy`). A reading specification on texts, and
  the reader with its pushback slot, counters, growing buffer and event stream proved against it.
  Main results: `EdnReader.Reader.CljRead`, `EdnTrees.ReadOfPrint`, `EdnTrees.EventsWellNested`,
  `EdnTrees.StringEndsAtEvenQuote`, and in `edn_forms.dfy` what the reader makes of white space,
  comments, metadata, discards and every kind of error, with `EdnForms.ItemsBefore`,
  `EdnForms.CommentSkipped` and `EdnForms.EventsInjective`.
- **Beans** (`beans.dfy`, `bean_world.dfy`). Persistent maps and vectors over mutable objects and
  arrays, with transients, caches and snapshots. `beans.dfy` refines each operation to finite maps
  and sequences; `bean_world.dfy` runs any sequence of operations over one shared heap. Main
  result: `BeanWorld.World.Run`.
- **Timers and tasks** (`tasks.dfy`). A protocol of atomic steps deciding when the process may exit.
  Main results: `Tasks.ExitIsSafe`, `Tasks.NothingLeftBehind`, `Tasks.BothExactly`, `Tasks.CountExact`, `Tasks.SelfClearExitsEarly`.
- **Dependency ordering** (`js_deps.dfy`). Main results: `JsDeps.TopoSort`, `JsDeps.EndsExactly`,
  `JsDeps.GoogLoader.DepSource`.
- **Buffered pushback reader** (`readers.dfy`). Main results: `Readers.LinesSplit`,
  `Readers.LinesOfUnlines`, `Readers.ScanTakes`, `Readers.Mixed` with `Readers.NothingLost`,
  `Readers.RunAdapter`.
- **Child-process pump** (`shell_pump.dfy`). Main results: `ShellPump.ProcessChildPipes`,
  `ShellPump.PumpEnds`.
- **Compile cache** (`compile_cache.dfy`). Main results: `CompileCache.RunExactly`,
  `CompileCache.OwnedIsSound`, `CompileCache.AnswersExactly`.
- **Sessions** (`sessions.dfy`). Main results: `Sessions.SessionsIsolated`, `Sessions.LastThree`.

`dafny verify dfyconfig.toml` checks the whole project.

## What is not so

Where the code does not do what one would expect, the model follows the code, a lemma or a run of
the methods gives a case, and the property is proved with its exact condition.

- A callback that clears its own timeout is signalled complete twice once it ends, and the process
  can exit while another timeout waits (`Tasks.SelfClearExitsEarly`, `Tasks.ExitIsSafe`,
  `Tasks.DoubledExactly`), or before that callback itself ends (`Tasks.SelfClearCutOff`).
- An interval cleared while its callback runs no longer counts, so the process can exit in the middle
  of that callback (`Tasks.IntervalCutOff`, `Tasks.ExitIsSafe`).
- An interval whose callback throws is never rescheduled and never counted off
  (`Tasks.ThrownIntervalStays`, `Tasks.LiveIntervalTicks`).
- Deleting the next word leaves the terminator behind, so the line as a C string keeps a stale tail,
  which the history then saves (`LineEditor.LineState.StaleTail`,
  `LineEditor.LineState.DeleteNextWord`).
- Word-start at position 0 looks at the byte before the buffer, and leaves the buffer for good if that
  is a space (`LineText.ScanLeaves`, `LineText.ScanStaysExactly`); a session ends there.
- `-unread` on a partly consumed buffer brings the consumed part back as well
  (`Readers.LineThenUnread`, `Readers.Reader.Unread`).
- After a line that ends where the buffer does, `-read` and `read-char` answer the empty string though
  there is more text (`Readers.LineThenChar`, `Readers.Adapter.ReadChar`).
- A bean that is not recursive comes back recursive from a recursive collection
  (`Beans.ComesBackRecursive`, `Beans.WrapUnwrap`).
- Looking up or removing a key that is no keyword acts on the property named null
  (`Beans.FoundUnderNull`, `Beans.Bean.Lookup`, `Beans.DeleteExactly`).
- Two files in the same namespace share a cache file, and one can be served the other's code
  (`CompileCache.CollisionServesOther`, `CompileCache.RunExactly`).
- A source edited between being read and its compiled form being written is served stale
  (`CompileCache.EditDuringLoad`, `CompileCache.WrittenIsServed`).
- A backslash before a delimiter is a character by itself, so `\(` opens a list
  (`EdnForms.BackslashAlone`), and a quote in front of a comment quotes nothing
  (`EdnForms.QuotedComment`).
- With a cycle in reach the dependency sort never ends (`JsDeps.CycleNeverDrains`,
  `JsDeps.EndsExactly`).

## Model

| member | source | states |
|---|---|---|
| Escapes.ParseOfDecimal | planck-c/linenoise.c:551-614 | a number printed into an escape sequence is the number the terminal parses back, for every number |
| Escapes.DecodeOne | planck-c/linenoise.c:551-614 | the bytes of one control sequence decode to that command, whatever follows them |
| Escapes.DecodeEncoded | planck-c/linenoise.c:475-488 | the bytes of any sequence of commands, appended to one buffer and written at once, reach the terminal as exactly those commands |
| Escapes.EncodePuts | planck-c/linenoise.c:579-583 | printable text written as it is stands for one put command a character |
| Escapes.BytesAre | planck-c/linenoise.c:551-614 | the bytes of each command, one by one |
| Escapes.DecimalIs | planck-c/linenoise.c:551-614 | numbers are written in decimal, digit by digit, without leading zeros |
| Terminal.PutText | planck-c/linenoise.c:579-590 | text put from a cell fills exactly that stretch of the grid, wrapping at the last column by the deferred-wrap rule, and leaves the cursor on the next cell or wrapping onto it |
| Terminal.LastRow | planck-c/linenoise.c:586-597 | after putting a text from the start of a row the cursor is on the last of the rows the text covers, also when it fills that row and the wrap is pending |
| Terminal.ClearRow | planck-c/linenoise.c:564-576 | carriage return and erase-to-right keep everything above the cursor's row and, with the rows below blank already, leave everything from it on blank |
| Terminal.RowsOf | planck-c/linenoise.c:541 | `(n + cols - 1) / cols` is the number of rows that cover n cells |
| Terminal.NextRowOf | planck-c/linenoise.c:542 | `(n + cols) / cols` is one more than the index of the row of cell n |
| Scrolling.WindowStep | planck-c/linenoise.c:564-614 | every command a refresh sends does on a screen that scrolls what it does on a taller one that need not, seen through a window that has moved down exactly as far as the cursor went below it |
| Scrolling.WindowPuts | planck-c/linenoise.c:579-583 | so text of any length put at the bottom lands as it would with room below |
| LineEditor.WindowShows | planck-c/linenoise.c:538-617 | what stands on the taller screen, the text and what is above the prompt, stands in the window as many rows higher as it moved |
| LineEditor.EmitClear | planck-c/linenoise.c:555-576 | the clearing part of a refresh blanks every row from the prompt's down to the last one used, ends on the prompt's row, touches nothing above and scrolls nothing |
| LineEditor.EmitText | planck-c/linenoise.c:579-583 | the writing part sends the colour, the prompt, the end of the colour and the text, and shows prompt and text from the prompt's row on with blank cells after them; it leaves the cursor on the last row they cover, the screen having scrolled just far enough for that row |
| LineEditor.EmitCursor | planck-c/linenoise.c:586-614 | the moving part leaves the cursor on the row and column asked for, without a pending wrap, and changes no cell but by the scrolling of an added newline |
| LineEditor.RowPlan | planck-c/linenoise.c:541-548 | the row and column numbers computed by division and remainder are those of the text's last row and of the cursor's cell, with the newline added exactly at a full last row |
| LineEditor.Redraw | planck-c/linenoise.c:538-617 | one refresh as a whole, in one write: rows cleared, text shown, cursor placed; the screen scrolls exactly as many rows as the text and the cursor need, with what was above the prompt moved up by as many and otherwise unchanged |
| LineEditor.LineState.RefreshRows | planck-c/linenoise.c:550-617 | a refresh from its row numbers on: the screen shows exactly prompt and text with the cursor on its cell, and the bookkeeping tracks the new cursor and the row the prompt has scrolled to |
| LineEditor.LineState.RefreshMultiLine | planck-c/linenoise.c:538-617 | for any tracked screen that can hold them, however the text changed since and wherever the prompt is, the screen afterwards shows exactly prompt and text wrapped at the width, every other row ever used is blank, the cursor is on cell `plen + pos`, and what is above the prompt is as it was, moved up only if the text then reaches the last row |
| LineEditor.LineState.ShownFits | planck-c/linenoise.c:538-617 | a line without a cell for each of its characters and for the cursor cannot be shown, so what a refresh asks for is also necessary |
| LineEditor.LineState.ClearPlan | planck-c/linenoise.c:542-561 | clearing starts at or below the lowest row ever used and ends on the prompt's row |
| LineEditor.LineState.constructor | planck-c/linenoise.c:802-827 | on any screen wider than the prompt the line starts empty, with the prompt shown on the cursor's row and the cursor after it |
| LineEditor.WritePrompt | planck-c/linenoise.c:827 | writing the prompt alone establishes what refreshes rely on |
| LineEditor.MemMove | planck-c/linenoise.c:648-748 | memmove with overlapping ranges: the moved stretch is the old source stretch, the rest is unchanged |
| LineEditor.LineState.Insert | planck-c/linenoise.c:631-660 | refines insertion on text before and after the cursor; a full buffer ignores it; the screen, with room for one more character, shows the result |
| LineEditor.LineState.OpenGap | planck-c/linenoise.c:648-653 | inserting in the middle shifts the text after the cursor by one and keeps a terminator |
| LineEditor.LineState.MoveLeft | planck-c/linenoise.c:663-668 | refines moving one character left, and shows it |
| LineEditor.LineState.MoveRight | planck-c/linenoise.c:671-676 | refines moving one character right, and shows it |
| LineEditor.LineState.MoveWordEnd | planck-c/linenoise.c:679-685 | refines moving past spaces and then to the end of the word, and shows it |
| LineEditor.LineState.WordEnd | planck-c/linenoise.c:681-683 | the forward scan stops exactly at the end of the next word |
| LineEditor.LineState.MoveWordStart | planck-c/linenoise.c:688-695 | refines moving back over spaces and a word, and shows it, exactly unless the cursor is at 0 of a non-empty line and the byte before the buffer is a space, where it leaves the buffer |
| LineEditor.LineState.WordStart | planck-c/linenoise.c:690-693 | the three-part backward scan goes below 0 exactly there, and otherwise lands where dropping trailing spaces and then a trailing word does |
| LineText.ScanStaysExactly | planck-c/linenoise.c:688-695 | step by step over the memory around the buffer, the scan stays in the line if and only if the line is empty, the cursor is not at 0, or the byte before the buffer is no space; otherwise it never comes back |
| LineText.ScanLeaves | planck-c/linenoise.c:690 | a line where it leaves: one character, the cursor at 0, a space before the buffer |
| LineText.ScanFinds | planck-c/linenoise.c:690-693 | otherwise the scan ends, at the start of the word, whatever stands at the cursor |
| LineEditor.LineState.MoveHome | planck-c/linenoise.c:698-703 | refines moving to the start, and shows it |
| LineEditor.LineState.MoveEnd | planck-c/linenoise.c:706-711 | refines moving to the end, and shows it |
| LineEditor.LineState.Backspace | planck-c/linenoise.c:752-760 | refines deleting the character before the cursor, and shows it; the terminator follows the text |
| LineEditor.LineState.Delete | planck-c/linenoise.c:742-749 | refines deleting the character after the cursor, and shows it; the terminator follows the text |
| LineEditor.LineState.DeletePrevWord | planck-c/linenoise.c:764-776 | refines deleting back over spaces and a word, and shows it; the terminator moves with the text |
| LineEditor.LineState.PrevWord | planck-c/linenoise.c:768-771 | the scan stops exactly where the trailing spaces and word begin |
| LineEditor.LineState.CloseBack | planck-c/linenoise.c:772-774 | the move joins the text before the word to the text after the cursor, terminator included |
| LineEditor.LineState.DeleteNextWord | planck-c/linenoise.c:779-786 | refines deleting the next word, and shows it; the terminator stays behind, so as a C string the line keeps a stale tail: it stays terminated exactly when nothing was deleted |
| LineEditor.LineState.StaleTail | planck-c/linenoise.c:779-786 | with the text ab and the cursor in front of it, the line is empty afterwards and still ab as a C string |
| LineEditor.LineState.SwapChars | planck-c/linenoise.c:949-956 | refines swapping the characters around the cursor and stepping right except at the end, and shows it |
| LineEditor.LineState.ClearLine | planck-c/linenoise.c:1132-1135 | empties the line, and shows it |
| LineEditor.LineState.DeleteToEnd | planck-c/linenoise.c:1136-1139 | cuts the line at the cursor, and shows it |
| LineEditor.LineState.ClearScreen | planck-c/linenoise.c:1144-1146 | clearing the screen moves the prompt to the top row, and the refresh shows the same line there |
| LineEditor.LineState.HistoryNext | planck-c/linenoise.c:718-738 | one step through the history is the step on stored lines, index and C-string text, and shows it on a screen that can hold the entry recalled |
| LineEditor.LineState.SaveCurrent | planck-c/linenoise.c:720-723 | the edited C string replaces exactly the entry that stands for it |
| LineEditor.LineState.Load | planck-c/linenoise.c:733-735 | the buffer gets the entry as strncpy, the terminator and strlen leave it, with the cursor at its end |
| LineText.MovesKeepText | planck-c/linenoise.c:663-711 | no move changes the text, and moving back over a word lands where deleting it would |
| LineText.BackspaceUndoesInsert | planck-c/linenoise.c:631-676 | backspace undoes typing, and left undoes right |
| LineText.EditWithinCapacity | planck-c/linenoise.c:631-786 | no command makes the text longer than the buffer |
| LineText.EditDoes | planck-c/linenoise.c:631-786 | what every command does to a whole text and a cursor position, by characters of the text alone; the words of the word commands are maximal runs without a space behind maximal runs of spaces |
| LineText.NextWordEnds | planck-c/linenoise.c:679-685 | the next word is the spaces from here, however many, and the run without a space behind them; no other end is |
| LineText.PrevWordStarts | planck-c/linenoise.c:764-776 | the previous word likewise, backwards |
| LineKeys.StrokeDecodes | planck-c/linenoise.c:917-1155 | with the key map Planck starts with, every key a user can press, printable, control, alt or sent as an escape sequence, is decoded as what it means, whatever is typed after it |
| LineKeys.StrokesMean | planck-c/linenoise.c:164-188 | when a user presses a sequence of keys, the actions of the session are what those keys mean, up to one that ends it |
| LineKeys.ProcessedPrintable | planck-c/linenoise.c:1149-1153 | only printable characters are inserted by a key that is modelled |
| LineKeys.Perform | planck-c/linenoise.c:924-1155 | each key after which the loop goes on does to line and history exactly what its action says, and above the prompt nothing changes but what scrolls away |
| LineKeys.RecallFits | planck-c/linenoise.c:718-738 | whether the entry a history key would recall fits the screen |
| LineKeys.Leave | planck-c/linenoise.c:927-948 | Enter moves to the end and drops the history entry of the edited line; delete-right on an empty line drops it too; cancel changes nothing; the outcome tells which key it was, also where the model of the session stops |
| LineKeys.Start | planck-c/linenoise.c:825-833 | before the loop: an entry for the new line in the history, and the leading spaces typed as far as they fit the buffer |
| LineKeys.EditLoop | planck-c/linenoise.c:838-1157 | over every input: the actions are those of the input's keys, one after the other, up to its end or the first key that ends the loop; before and after each the terminal shows exactly the edited line with the cursor on its cell, line and history change only as that key says, and what is above the prompt only by scrolling; the outcome is that of the last key |
| LineKeys.LoopEndsExactly | planck-c/linenoise.c:924-1157 | a key ends the loop if and only if it is Enter or Cancel, delete-right on an empty line, or one where the model stops: a key not modelled, a line that could not be shown, or the word-start that leaves the buffer |
| LineHistory.HistoryIsLastLines | planck-c/linenoise.c:1340-1366 | with a fixed maximum the history is the last `max` of all added lines with adjacent repetitions counted once |
| LineHistory.CollapseIs | planck-c/linenoise.c:1340-1366 | collapsing repetitions keeps every line and the last one last, and leaves no two equal neighbours |
| LineHistory.History.Add | planck-c/linenoise.c:1340-1366 | adding in place, shifting when full, is adding on the list; it reports whether the line was added |
| LineHistory.History.SetMaxLen | planck-c/linenoise.c:1373-1399 | growing keeps every line, shrinking keeps the latest, and a maximum below 1 is refused |
| LineHistory.History.Pop | planck-c/linenoise.c:927-929 | dropping the last entry keeps all others |
| LineHistory.LastNTwice | planck-c/linenoise.c:1373-1399 | shrinking twice is shrinking to the smaller maximum |
| LineHistory.BackAndForth | planck-c/linenoise.c:718-738 | k steps back and k forward, without reaching an end, restore text and index and change no stored entry but the edited line's own |
| LineHistory.MovesBack | planck-c/linenoise.c:718-738 | k steps back show the entry k before, with the edited line saved in its slot |
| LineHistory.MoveWithin | planck-c/linenoise.c:718-738 | a step that stays inside saves the text in its entry and shows the next one, cut to the buffer |
| LineHistory.MovePastEnd | planck-c/linenoise.c:718-738 | a step past either end keeps the place and the text, which is saved if there are other entries |
| EdnReader.StringBuffer.Append | planck-c/edn.c:55-62 | appending one character to the growing buffer, resizing when full, appends it to the contents and keeps them terminated |
| EdnReader.StringBuffer.Appends | planck-c/edn.c:64-69 | appending a string appends all of it |
| EdnReader.Reader.PopChar | planck-c/edn.c:113-129 | takes the character at the current position, from the slot or the input, with line and column kept right |
| EdnReader.Reader.PushChar | planck-c/edn.c:131-140 | the slot is empty whenever it is called, as its assertion demands, and it undoes one pop, line and column included |
| EdnReader.Reader.PeekChar | planck-c/edn.c:142-146 | looks at the next character and moves nothing |
| EdnReader.Reader.Emit | planck-c/edn.c:155-160 | an event is emitted exactly when nothing is being discarded |
| EdnReader.Reader.SkipWhitespace | planck-c/edn.c:167-171 | returns and consumes the first character that is not white space |
| EdnReader.Reader.ScanString | planck-c/edn.c:192-221 | the text up to and including the closing quote, or nothing when the input ends first |
| EdnReader.Reader.ReadTypedString | planck-c/edn.c:192-234 | strings and regexes: position, status and events of the specification |
| EdnReader.Reader.ScanToken | planck-c/edn.c:236-250 | a token is everything up to white space or a terminating macro, which is pushed back |
| EdnReader.Reader.ReadTokenRest | planck-c/edn.c:236-271 | tokens: position, status and events of the specification |
| EdnReader.Reader.ReadCommentRest | planck-c/edn.c:273-279 | a comment is skipped through its line end |
| EdnReader.Reader.ReadWrapped | planck-c/edn.c:281-297 | quote and deref emit the list they abbreviate around the form read |
| EdnReader.Reader.ReadDiscard | planck-c/edn.c:366-377 | what is discarded emits nothing, and the counter is back where it was |
| EdnReader.Reader.ReadDelimited | planck-c/edn.c:312-350 | a delimited form: begin, the items' events, end, with depth restored; on an error the events of what was begun |
| EdnReader.Reader.ReadAllItems | planck-c/edn.c:317-330 | its loop reads the items of the specification and stops at the closing delimiter or the first error |
| EdnReader.Reader.ReadMacroForm | planck-c/edn.c:402-423 | every macro character's reader does what the specification says |
| EdnReader.Reader.ReadDispatch | planck-c/edn.c:379-400 | every dispatch character's reader does what the specification says; an unknown one fails its assertion |
| EdnReader.Reader.ReadOneForm | planck-c/edn.c:425-443 | reading a form, with all its mutual recursion, does what the specification says, and ends on every input |
| EdnReader.Reader.CljRead | planck-c/edn.c:445-457 | on every text: the specification's result; the events are a prefix of a well-nested sequence and, unless it failed, those of at most one tree, with depth and discard count back at zero; line is 1 plus the line ends consumed and column the count since the last one |
| EdnTrees.ReadPrint | planck-c/edn.c:425-443 | reading undoes printing, anywhere in a text: the form read is the printed tree, and the position is just after it |
| EdnTrees.ReadPrintAll | planck-c/edn.c:312-334 | the same for printed items up to their closing delimiter |
| EdnTrees.ReadOfPrint | planck-c/edn.c:445-457 | reading a printed tree of valid tokens gives exactly that tree and consumes exactly its text |
| EdnTrees.PrintInjective | planck-c/edn.c:445-457 | hence no two valid trees print the same |
| EdnTrees.ReadQuoted | planck-c/edn.c:281-297 | a quote or at sign before a printed tree reads as the list it abbreviates |
| EdnTrees.StringEndsAtEvenQuote | planck-c/edn.c:192-221 | a string ends at the first quote preceded by an even number of backslashes |
| EdnTrees.EventsWellNested | planck-c/edn.c:155-160 | on every text the emitted events can be completed by closing events to a well-nested sequence, and a form that was read emitted at most one tree |
| EdnTrees.FormNested | planck-c/edn.c:425-443 | a form's events leave open exactly what was open before, also when it fails inside delimiters |
| EdnTrees.ItemsNested | planck-c/edn.c:312-334 | the same for the items of a delimited form |
| EdnTrees.ClosersNest | planck-c/edn.c:312-334 | whatever is left open can be closed |
| EdnForms.ValidTokensAre | planck-c/edn.c:98-104 | which texts are a symbol, keyword, character or number, character by character: what they start with and what ends them |
| EdnForms.BlanksSkipped | planck-c/edn.c:167-171 | white space, commas included, in front of a form or an item makes no difference |
| EdnForms.NothingLeft | planck-c/edn.c:425-443 | where only white space is left there is no form at the outermost level, and an unexpected end inside another form |
| EdnForms.CommentSkipped | planck-c/edn.c:273-279 | a comment, of either kind, is read through the end of its line whatever it says, and leaves nothing; among items reading goes on behind it |
| EdnForms.CommentToTheEnd | planck-c/edn.c:273-279 | also when the text ends with it |
| EdnForms.MarkedSkipped | planck-c/edn.c:366-377 | a form marked as metadata or to be discarded is read exactly to its end and leaves nothing, alone and among items |
| EdnForms.MarkedFails | planck-c/edn.c:366-377 | if it cannot be read its error stands and its events are gone |
| EdnForms.Refused | planck-c/edn.c:299-310 | backquote, tilde and percent, an unmatched closing, unreadable and unknown dispatch forms fail, each with its own error and place |
| EdnForms.ItemFails | planck-c/edn.c:312-334 | a failing item is the failure of the items |
| EdnForms.ItemsBefore | planck-c/edn.c:312-334 | printed items in front of anything are read first, and what follows is read behind them, failing or not |
| EdnForms.Unclosed | planck-c/edn.c:312-334 | a form that is not closed fails at the end of the text, with its beginning and its items reported |
| EdnForms.Spoilt | planck-c/edn.c:299-334 | so does one with another form's closing or an item that is not implemented, where that stands |
| EdnForms.QuoteFails | planck-c/edn.c:281-297 | a quoted form that fails has begun its list |
| EdnForms.QuoteUnclosed | planck-c/edn.c:281-297 | a quote inside another form must be followed by one |
| EdnForms.QuotedComment | planck-c/edn.c:281-297 | a quote in front of a comment quotes nothing |
| EdnForms.BackslashAlone | planck-c/edn.c:353-357 | a backslash in front of a delimiter is the character by itself |
| EdnForms.StringUnclosed | planck-c/edn.c:192-221 | a string without a closing quote fails at the end of the text |
| EdnForms.EventsInjective | planck-c/edn.c:155-160 | different trees are reported by different events |
| EdnForms.CountersAre | planck-c/edn.c:113-140 | the line is one more than the line ends read, and the column counts from after the last of them |
| Beans.WrapUnwrap | planck-cljs/src/planck/from/cljs_bean/core.cljs:18-35 | storing unwraps and reading wraps: on a compatible value that is the identity, except exactly for a bean that was not recursive, which comes back recursive |
| Beans.ComesBackRecursive | planck-cljs/src/planck/from/cljs_bean/core.cljs:18-35 | a run of the operations in which such a bean does |
| Beans.DeleteExactly | planck-cljs/src/planck/from/cljs_bean/core.cljs:116-123 | removing the property a key reads is removing the key, except exactly for a key that is no keyword when there is a property named null |
| Beans.FoundUnderNull | planck-cljs/src/planck/from/cljs_bean/core.cljs:307-329 | a bean in which a key that is no keyword finds a value it does not have, and removes it |
| Beans.SnapshotNeeded | planck-cljs/src/planck/from/cljs_bean/core.cljs:54-69 | a snapshot is taken exactly for a key that is no keyword, a persistent map or vector, and, in a recursive collection, a value that would come back as something else: a raw object or array |
| Beans.StoredSeen | planck-cljs/src/planck/from/cljs_bean/core.cljs:18-33 | a bean that is not recursive shows the stored value itself, a recursive one a nested object or array as a bean or vector over it |
| Beans.AddedShows | planck-cljs/src/planck/from/cljs_bean/core.cljs:287-297 | a value that was stored or put in a snapshot is read as itself, except a bean that was not recursive from a recursive collection |
| Beans.ToVal | planck-cljs/src/planck/from/cljs_bean/core.cljs:18-26 | wrapping shows the object or array itself, in a new bean or vector with empty caches, and anything else as it is |
| Beans.Snapshot | planck-cljs/src/planck/from/cljs_bean/core.cljs:37-42 | a snapshot is a persistent map with exactly the entries the bean shows |
| Beans.SnapshotArr | planck-cljs/src/planck/from/cljs_bean/core.cljs:44-45 | a snapshot of an array is a persistent vector with exactly the elements it shows |
| Beans.JsObject.Set | planck-cljs/src/planck/from/cljs_bean/core.cljs:113 | setting a property changes that property only |
| Beans.JsObject.Delete | planck-cljs/src/planck/from/cljs_bean/core.cljs:120 | deleting a property removes that property only |
| Beans.JsObject.Clone | planck-cljs/src/planck/from/cljs_bean/core.cljs:292-309 | a clone is a new object with the same properties |
| Beans.Bean.Lookup | planck-cljs/src/planck/from/cljs_bean/core.cljs:321-329 | lookup is the shown map's lookup for keyword keys; any other key reads the property named null, so it agrees with the map exactly when there is none |
| Beans.Bean.Count | planck-cljs/src/planck/from/cljs_bean/core.cljs:312-319 | the count is the number of entries, through either cache, and the caches stay right |
| Beans.Bean.Keys | planck-cljs/src/planck/from/cljs_bean/core.cljs:283-289 | the keys listed are the properties, each once, and the cache keeps them |
| Beans.Bean.Assoc | planck-cljs/src/planck/from/cljs_bean/core.cljs:290-300 | a new bean over a changed copy, or a snapshot, shows the old map with the entry added; the old bean is untouched |
| Beans.Bean.Dissoc | planck-cljs/src/planck/from/cljs_bean/core.cljs:307-310 | a new bean shows the map without the key; for a key that is no keyword that holds exactly when there is no property named null |
| Beans.Bean.AsTransient | planck-cljs/src/planck/from/cljs_bean/core.cljs:361-363 | the transient works on a new object with the same properties |
| Beans.TransientBean.Lookup | planck-cljs/src/planck/from/cljs_bean/core.cljs:74-86 | lookup in the current contents, refused once persistent; any key that is no keyword reads the property named null |
| Beans.TransientBean.Count | planck-cljs/src/planck/from/cljs_bean/core.cljs:88-92 | the count is the number of entries, through the cache |
| Beans.TransientBean.Assoc | planck-cljs/src/planck/from/cljs_bean/core.cljs:105-115 | adds the entry in place and forgets the cached count, or gives a new ClojureScript transient over a snapshot with the entry and leaves itself alone; refused once persistent |
| Beans.TransientBean.Dissoc | planck-cljs/src/planck/from/cljs_bean/core.cljs:116-123 | removes the entry in place and forgets the cached count, with the exact condition for keys that are no keywords; refused once persistent |
| Beans.TransientBean.Persistent | planck-cljs/src/planck/from/cljs_bean/core.cljs:98-103 | the bean takes over the object, shows the same map with a right count, and the transient is frozen; a second call is refused |
| Beans.ArrayVector.Nth | planck-cljs/src/planck/from/cljs_bean/core.cljs:606-615 | the element at an index in range, an error outside it |
| Beans.ArrayVector.Conj | planck-cljs/src/planck/from/cljs_bean/core.cljs:578-584 | a new vector over an extended copy, or a snapshot, shows the sequence with the element appended |
| Beans.ArrayVector.AssocN | planck-cljs/src/planck/from/cljs_bean/core.cljs:631-641 | replaces in a copy or a snapshot, appends at the length, fails beyond it |
| Beans.ArrayVector.Pop | planck-cljs/src/planck/from/cljs_bean/core.cljs:568-576 | a new vector without the last element; an error when empty |
| Beans.ArrayVector.AsTransient | planck-cljs/src/planck/from/cljs_bean/core.cljs:675-677 | the transient works on a new array with the same elements |
| Beans.TransientArrayVector.Conj | planck-cljs/src/planck/from/cljs_bean/core.cljs:372-379 | appends in place, or gives a new ClojureScript transient over a snapshot and leaves itself alone; refused once persistent |
| Beans.TransientArrayVector.AssocN | planck-cljs/src/planck/from/cljs_bean/core.cljs:393-406 | replaces or appends in place, or gives a new ClojureScript transient over a snapshot; an error out of range or once persistent |
| Beans.TransientArrayVector.Pop | planck-cljs/src/planck/from/cljs_bean/core.cljs:408-415 | drops the last element by taking a new array; an error when empty or once persistent |
| Beans.TransientArrayVector.Persistent | planck-cljs/src/planck/from/cljs_bean/core.cljs:381-386 | the vector takes over the array and the transient is frozen; a second call is refused |
| BeanWorld.DeepGrows | planck-cljs/src/planck/from/cljs_bean/core.cljs:18-69 | a value looks the same to every depth in every later store, since a store only grows |
| BeanWorld.RootedGrows | planck-cljs/src/planck/from/cljs_bean/core.cljs:18-69 | what persistent values can reach stays reachable |
| BeanWorld.PushedShows | planck-cljs/src/planck/from/cljs_bean/core.cljs:366-380 | so is a value added to a vector |
| BeanWorld.World.ObjWritten | planck-cljs/src/planck/from/cljs_bean/core.cljs:105-123 | writing to an editable transient bean keeps the ownership invariant: nothing persistent reaches its object |
| BeanWorld.World.ArrWritten | planck-cljs/src/planck/from/cljs_bean/core.cljs:372-406 | the same for a transient vector |
| BeanWorld.World.Assoc | planck-cljs/src/planck/from/cljs_bean/core.cljs:290-300 | in a shared heap: the value handed out shows the bean's map with the entry added, and no stored value changes |
| BeanWorld.World.Dissoc | planck-cljs/src/planck/from/cljs_bean/core.cljs:307-310 | the value handed out shows the map without the key, and no stored value changes |
| BeanWorld.World.Conj | planck-cljs/src/planck/from/cljs_bean/core.cljs:578-584 | the value handed out shows the vector's sequence with the element appended, and no stored value changes |
| BeanWorld.World.AssocN | planck-cljs/src/planck/from/cljs_bean/core.cljs:631-641 | the value handed out shows the sequence with the element replaced or appended, and no stored value changes |
| BeanWorld.World.ToClj | planck-cljs/src/planck/from/cljs_bean/core.cljs:702-753 | a bean or vector handed out shows the object or array itself |
| BeanWorld.World.BeanTransient | planck-cljs/src/planck/from/cljs_bean/core.cljs:361-363 | a new transient shows the bean's map and owns its object alone |
| BeanWorld.World.BeanFrozen | planck-cljs/src/planck/from/cljs_bean/core.cljs:98-103 | a transient bean that was frozen gives its object up: no value and no other transient reaches it |
| BeanWorld.World.ArrReplaced | planck-cljs/src/planck/from/cljs_bean/core.cljs:408-415 | a transient vector that goes on with a new array owns that array alone |
| BeanWorld.World.PersistentT | planck-cljs/src/planck/from/cljs_bean/core.cljs:98-103 | the bean handed out shows the transient's map; handing the object over keeps the invariant, since the transient gives it up |
| BeanWorld.World.AssocT | planck-cljs/src/planck/from/cljs_bean/core.cljs:105-115 | in place the transient shows the map with the entry added; on a snapshot that map is handed out and the transient is as before; no stored value changes |
| BeanWorld.World.PopT | planck-cljs/src/planck/from/cljs_bean/core.cljs:408-415 | the transient shows the sequence without its last element, and owns its new array alone; no stored value changes |
| BeanWorld.World.Step | planck-cljs/src/planck/from/cljs_bean/core.cljs:71-695 | every operation hands out, or makes its transient show, what the same operation on finite maps and sequences gives, changes no other transient, keeps the ownership invariant and only adds to what persistent values reach |
| BeanWorld.World.Run | planck-cljs/src/planck/from/cljs_bean/core.cljs:71-695 | refinement and persistence over all runs: every step gives what its operation should, and every value handed out before shows afterwards what it showed, to every depth, and every bean and vector its map or sequence |
| Tasks.StepTimeout | planck-c/engine.c:562-586 | every step keeps, for each timeout, that it is waiting, running, run once or cleared, with at most one native timer |
| Tasks.StepInterval | planck-c/engine.c:588-608 | every step keeps, for each interval, at most one native timer or running callback, and exactly one while it is live and has not thrown |
| Tasks.StepCounts | planck-c/engine.c:562-608 | every step keeps the count of outstanding tasks equal to live timeouts, intervals and shells, less the second signals of timeouts that cleared themselves |
| Tasks.RunKeepsInv | planck-c/engine.c:562-608 | every interleaving keeps all of that while the ids have not wrapped |
| Tasks.DoubledExactly | planck-c/engine.c:571-586 | a second signal happens in a run if and only if a callback calls clearTimeout on its own running timeout and ends |
| Tasks.CountExact | planck-c/tasks.c:23-51 | the count of outstanding tasks equals what is live if and only if no callback that cleared its own timeout has ended |
| Tasks.BothExactly | planck-c/engine.c:571-586 | some timeout has both run and been cleared if and only if a callback cleared its own, in every run |
| Tasks.ExitIsSafe | planck-c/tasks.c:8-21 | a count of zero means that nothing is waiting and every timeout set has run exactly once or was cleared, not both, if and only if no callback cleared its own timeout; then a callback still runs exactly if it is that of an interval cleared while it ran |
| Tasks.NothingLeftBehind | planck-c/tasks.c:8-21 | the same by the steps of the run alone: at a zero count, unless a callback cleared its own timeout, every shell started has ended, every interval set was cleared, and every timeout set has started once or was cleared, not both |
| Tasks.RunCounts | planck-c/functions.c:1294-1382 | shells running are those started less those ended, and the ids issued are as many as the calls that set timeouts and intervals |
| Tasks.RunHistory | planck-c/engine.c:562-608 | which timeouts ran and were cleared, and which intervals threw, by the steps that did it |
| Tasks.IntervalsStay | planck-c/engine.c:588-608 | an interval that was set is live until it is cleared, and nothing else ends it |
| Tasks.SelfClearExitsEarly | planck-c/engine.c:571-586 | a run where one did, and the count is zero while a timeout still waits |
| Tasks.SelfClearCutOff | planck-c/engine.c:571-586 | a run where the count is zero while the callback that cleared its own timeout still runs |
| Tasks.StrayExactly | planck-c/engine.c:588-608 | the callback of an interval no longer stored is running if and only if that interval was cleared while it ran and it has not ended since |
| Tasks.IntervalCutOff | planck-c/engine.c:588-608 | a run where all is done and the count is zero while such a callback still runs |
| Tasks.LiveIntervalTicks | planck-c/engine.c:588-602 | a live interval has its one native timer or is running if and only if no run of it threw |
| Tasks.ThrownIntervalStays | planck-c/engine.c:588-602 | a run in which one threw: it stays counted with no timer left |
| Tasks.ThrownIntervalBlocksExit | planck-c/engine.c:588-602 | such an interval is never called again, yet keeps the count above zero in every continuation that does not clear it |
| Tasks.Engine.SetTimeout | planck-c/functions.c:1294-1324 | issuing an id, counting one more outstanding and starting the timer, then storing the callback, is the protocol's step |
| Tasks.Engine.ClearTimeout | planck-c/engine.c:581-586 | deleting the callback and signalling, only when it is stored |
| Tasks.Engine.SetInterval | planck-c/engine.c:588-597 | a new id, one task and one native timer |
| Tasks.Engine.PlanckSetInterval | planck-c/functions.c:1345-1382 | a null id issues the next one and counts a task; a given id only starts another timer |
| Tasks.Engine.ClearInterval | planck-c/engine.c:603-608 | deleting the callback and signalling, only when it is stored |
| Tasks.Engine.Wake | planck-c/functions.c:1276-1292 | the timer's one callback runs what is stored under its id, if anything is |
| Tasks.Engine.Finish | planck-c/engine.c:571-602 | after a timeout's callback, deleting and signalling whether or not it threw; after an interval's, rescheduling only if it did not |
| Tasks.Engine.ShellStart | planck-c/shell.c:427 | an asynchronous shell counts as one task |
| Tasks.Engine.ShellEnd | planck-c/shell.c:263 | which its thread gives back |
| Tasks.Engine.BlockUntilTasksComplete | planck-c/tasks.c:8-21 | through any number of waits with any steps in between, it returns only on a count of zero, and then every shell started has ended, every timeout has run once or was cleared, not both, and nothing waits, exactly if no callback cleared its own timeout; what exit can still cut off then is the callback of an interval cleared while it ran |
| JsDeps.TopoSort | planck-cljs/src/planck/js_deps.cljs:82-91 | for every index with no cycle in reach of the name, and every choice of elements: exactly the names reachable from it, each once, every requirement before its dependents; and it ends |
| JsDeps.AllRequired | planck-cljs/src/planck/js_deps.cljs:88-91 | each visit collects exactly the names the index lists |
| JsDeps.EndsExactly | planck-cljs/src/planck/js_deps.cljs:82-91 | the worklist can be emptied by some choices if and only if no cycle is in reach of the name, and then TopoSort says that all choices do |
| JsDeps.InReachAcyclic | planck-cljs/src/planck/js_deps.cljs:82-91 | without such a cycle the part of the index in reach is acyclic |
| JsDeps.VisitLowersWeight | planck-cljs/src/planck/js_deps.cljs:86-91 | each round lowers the sum over the worklist of 1 plus the weights of the requirements |
| JsDeps.VisitKeepsPending | planck-cljs/src/planck/js_deps.cljs:86-91 | each round keeps every visited name's requirements visited more recently or still to visit |
| JsDeps.DistinctKeepsOrder | planck-cljs/src/planck/js_deps.cljs:88-89 | keeping only the first of repeated names keeps the order of first places |
| JsDeps.ClosedUnderPaths | planck-cljs/src/planck/js_deps.cljs:82-91 | an order with all requirements in place contains everything reachable |
| JsDeps.CycleNeverDrains | planck-cljs/src/planck/js_deps.cljs:86-91 | with a name in the worklist that reaches a cycle no choices ever empty it |
| JsDeps.ReachShrinks | planck-cljs/src/planck/js_deps.cljs:82-91 | in an acyclic index a requirement reaches strictly less than the name that requires it |
| JsDeps.RemoveKeepsOrder | planck-cljs/src/planck/repl.cljs:1166 | removing the loaded names keeps the order of the others |
| JsDeps.EmitKeepsJustified | planck-cljs/src/planck/repl.cljs:1163-1171 | emitting a load order without the loaded names keeps every emitted name's requirements before it or loaded at the start |
| JsDeps.GoogLoader.DepSource | planck-cljs/src/planck/repl.cljs:1155-1171 | over any sequence of calls for names with no cycle in reach, no library is emitted twice, and what each requires was emitted before it or loaded at the start; an unknown name emits nothing |
| Readers.LinesSplit | planck-cljs/src/planck/core.cljs:264-269 | the lines hold no newline, and ending each with one gives the text back, up to a final newline it may lack |
| Readers.LinesOfUnlines | planck-cljs/src/planck/core.cljs:264-269 | and that is the only such split: newline-free lines are recovered from their text |
| Readers.TakeLineOf | planck-cljs/src/planck/core.cljs:69-91 | one line off a text is what stands before its first newline, which goes with it |
| Readers.ScanTakes | planck-cljs/src/planck/core.cljs:69-91 | reading a line chunk by chunk, from any buffer at any position and any chunks, takes the first line off the text |
| Readers.Reader.Read | planck-cljs/src/planck/core.cljs:62-67 | takes a piece off the front of the remaining text, and answers nil exactly when there is no buffer and the source is finished |
| Readers.Reader.ReadLine | planck-cljs/src/planck/core.cljs:69-91 | takes one line off the remaining text, however it is chunked, and leaves the buffer as reading it chunk by chunk does |
| Readers.Reader.Unread | planck-cljs/src/planck/core.cljs:93-96 | puts text back in front of the remaining text exactly when nothing of the buffer was consumed; otherwise the consumed part comes back as well |
| Readers.Reader.Slurp | planck-cljs/src/planck/core.cljs:331-342 | returns exactly the remaining text |
| Readers.Reader.LineSeq | planck-cljs/src/planck/core.cljs:264-269 | returns exactly the lines of the remaining text, whatever the chunks, with no extra empty line at the end |
| Readers.Mixed | planck-cljs/src/planck/core.cljs:59-91 | any mix of reads and line reads, over any chunks, is the same mix on the plain text: each read takes some of its front, nothing only when there is none, and each line read exactly one line |
| Readers.NothingLost | planck-cljs/src/planck/core.cljs:59-91 | so what the answers stand for, one after the other, with what is left, is the text |
| Readers.LinesAgree | planck-cljs/src/planck/core.cljs:69-91 | and lines read from the same text are the same, whatever the chunks |
| Readers.Adapter.ReadChar | planck-cljs/src/planck/core.cljs:196-201 | on any reader it takes the first character of the remaining text, and answers nil at its end, if and only if the buffer is not used up and, without a buffer, the next chunk is not empty; otherwise it answers the empty string and takes nothing |
| Readers.Adapter.PeekChar | planck-cljs/src/planck/core.cljs:202-205 | takes nothing, and answers the first character under exactly that condition |
| Readers.Adapter.Unread | planck-cljs/src/planck/core.cljs:206-209 | puts a character back in front of the remaining text exactly when nothing of the buffer was consumed |
| Readers.LineThenChar | planck-cljs/src/planck/core.cljs:69-91 | a line that ends where its chunk does and then a character: the answer is the empty string though b is still to come |
| Readers.LineThenUnread | planck-cljs/src/planck/core.cljs:93-96 | a line and then a character put back: the line comes back with it |
| Readers.RunAdapter | planck-cljs/src/planck/core.cljs:193-209 | from a fresh reader over non-empty chunks any run of read, peek and unread behaves as on one plain character sequence |
| ShellPump.Capture.ReadChildPipe | planck-c/shell.c:113-139 | one read: exactly how far it gets, up to the end of the block; the captured bytes stay those read so far, in a block of the next multiple of 4096 above their number, so the terminator always fits |
| ShellPump.Feed.WriteSome | planck-c/shell.c:193-206 | one write: exactly how many bytes are sent; they stay a prefix of the input, which is dropped exactly when all of it was sent; a failed write changes nothing |
| ShellPump.ProcessChildPipes | planck-c/shell.c:141-214 | under every order of poll results and short reads and writes: exactly how far streams, input and status get; it is done exactly at the end of both streams or at a failed poll; if it ends by itself both captures are everything the child wrote, terminated, and otherwise prefixes |
| ShellPump.PumpProgress | planck-c/shell.c:150-209 | without a failed poll every readiness of an unfinished stream reads a byte or sees the end, and every accepted write sends a byte while there are some |
| ShellPump.PumpEnds | planck-c/shell.c:150-209 | so the pump is done once each stream was ready more often than it has bytes left |
| ShellPump.OverStays | planck-c/shell.c:150-209 | and once done it stays so, whatever further polls would answer |
| ShellPump.ReadAmount | planck-c/shell.c:113-139 | one read takes all the kernel hands over unless the block of 4096 bytes or the stream ends first |
| ShellPump.WriteAmount | planck-c/shell.c:193-206 | one write sends all the kernel accepts unless 4096 bytes or the input ends first |
| ShellPump.FailedPollEnds | planck-c/shell.c:155-165 | a failed poll ends the pump with its error and leaves the rest as it was |
| ShellPump.PollServes | planck-c/shell.c:150-209 | a poll that was interrupted or timed out changes nothing, and a ready one serves all three streams |
| CompileCache.HeaderRoundTrip | planck-cljs/src/planck/repl.cljs:877-901 | the version and options in a written header are read back, and stripping the first line gives the JavaScript back, for every version without white space and every options printed on one line |
| CompileCache.OptionsTellBuilds | planck-cljs/src/planck/repl.cljs:903-911 | two builds write the same options exactly when they agree on assertions and on each of checked-arrays, static-fns, fn-invoke-direct and optimizations |
| CompileCache.OptionsWritten | planck-cljs/src/planck/repl.cljs:903-911 | which options are written: elided assertions and, of the environment, checked-arrays, static-fns, fn-invoke-direct and optimizations, with their values |
| CompileCache.HeaderText | planck-cljs/src/planck/repl.cljs:874-882 | the header as it stands in the file |
| CompileCache.AnswersExactly | planck-cljs/src/planck/repl.cljs:1012-1023 | a cache file written for some build answers if and only if it is newer than the source and the version and the four options and the assertions are those of now, or it and the source are bundled |
| CompileCache.UnstampedRefused | planck-cljs/src/planck/repl.cljs:891-897 | a file without the header's stamp answers only when bundled |
| CompileCache.CachedIsCurrent | planck-cljs/src/planck/repl.cljs:1016-1023 | a valid cache entry holds what compiling the text it was made from gives with the current version and options; if it was made for the path being loaded, that text is the current one |
| CompileCache.InvStep | planck-cljs/src/planck/repl.cljs:942-953 | every step keeps that: an entry newer than its source was made from the source as it is |
| CompileCache.LoadExactly | planck-cljs/src/planck/repl.cljs:1047-1075 | a load evaluates what compiling the current source gives if and only if it is not answered by a valid entry made for another path, from a text that now compiles differently |
| CompileCache.RunExactly | planck-cljs/src/planck/repl.cljs:1047-1075 | all loads of a run of edits, configuration changes and loads do, with a clock that does not go back, if and only if none of them is answered so |
| CompileCache.OwnedIsSound | planck-cljs/src/planck/repl.cljs:1047-1075 | they do in every run in which each cache file belongs to one path and only loads of that path use it, whatever the namespaces that name the files |
| CompileCache.CollisionServesOther | planck-cljs/src/planck/repl.cljs:862-873 | a run in which two paths share a cache file: both edited, the first loaded, then the second, which runs the first's code |
| CompileCache.WrittenIsServed | planck-cljs/src/planck/repl.cljs:942-953 | what is written is what every older source using the file is served, so loads must be atomic: a source edited between being read and being written back is served stale |
| CompileCache.EditDuringLoad | planck-cljs/src/planck/repl.cljs:942-953 | a run in which a file is edited after it was read and before what came of it is written: the next load runs the old code |
| CompileCache.Loader.WriteCache | planck-cljs/src/planck/repl.cljs:942-953 | writes header, options and JavaScript under the path's prefix with the current time |
| CompileCache.Loader.CachedCallbackData | planck-cljs/src/planck/repl.cljs:1047-1075 | answers exactly when the cached file is valid, with the header line stripped unless it is bundled |
| CompileCache.Loader.LoadAndCallback | planck-cljs/src/planck/repl.cljs:1077-1095 | a load evaluates what compiling the current text gives, except exactly when another path's entry answers with what compiles differently, and keeps the cache's invariant |
| Sessions.SessionsIsolated | planck-cljs/src/planck/repl.cljs:1981-1994 | after every interleaving of executions, clears and stray changes of the vars, a session's vars are what its own executions since its last clear give from the default state |
| Sessions.OthersMakeNoDifference | planck-cljs/src/planck/repl.cljs:1981-1994 | two histories with the same executions of a session leave it the same |
| Sessions.OwnOf | planck-cljs/src/planck/repl.cljs:1981-1994 | a session's own executions, event by event: those since its last clearing |
| Sessions.ClearForgets | planck-cljs/src/planck/repl.cljs:1981-1984 | a cleared session is as new: nothing before the clearing makes a difference |
| Sessions.AfterExactly | planck-cljs/src/planck/repl.cljs:2088-2136 | each of the ten vars after an execution: six as the evaluation left them, also when it throws, and the result vars with the value or the error recorded |
| Sessions.LastThree | planck-cljs/src/planck/repl.cljs:1996-2003 | the result vars are the session's last three recorded values and its last error, if its code does not set them itself |
| Sessions.Repl.SetSessionState | planck-cljs/src/planck/repl.cljs:1960-1973 | every session var gets its own saved value |
| Sessions.Repl.Process123 | planck-cljs/src/planck/repl.cljs:1996-2003 | the value is recorded in REPL mode for a plain form, shifting the other two |
| Sessions.Repl.HandleError | planck-cljs/src/planck/repl.cljs:1227-1233 | the error is recorded in REPL mode only |
| Sessions.Repl.ProcessExecuteSource | planck-cljs/src/planck/repl.cljs:2088-2136 | switching in, evaluating, recording the value or the error, and capturing is one step of the session, also when evaluation throws |
| Sessions.Repl.ClearStateForSession | planck-cljs/src/planck/repl.cljs:1981-1984 | the session is back at the default state |
| Sessions.Repl.Serve | planck-cljs/src/planck/repl.cljs:2088-2136 | any interleaving served by the one set of vars leaves each session with what its own executions give |

## Left out

Line editor:

- Reverse-i-search, tab completion, paste detection, brace highlighting, asynchronous prints and resizing: they change the prompt or the screen between refreshes; such keys end a modelled session.
- Lines that do not fit the screen together with the prompt and the cursor: `LineEditor.LineState.ShownFits` says that they cannot be shown, and a session is modelled up to the key that would make one. Only printable single-cell characters are inserted.
- LineEditor.LineState.Insert: asks for one cell more than the exact condition of `LineEditor.LineState.RefreshMultiLine`, so that the cursor fits wherever it moves; so do `HistoryNext` and a session's keys.
- Single-line mode, raw mode and asking the terminal for its size: Planck always sets multi-line mode, and the rest is terminal I/O.
- Failing writes and failing allocations.
- What happens after word-start has left the buffer: the memory around it is not part of this model.
- LineKeys.Start: requires a history with room for at least one line, as the key loop takes the edited line's entry for granted.
- Saving history to a file and loading it.

EDN reader:

- Several top-level forms from one reader: every call resets the pushback slot, and a terminator in it is lost.
- White space and digits are the ASCII ones, where the code asks the locale; the input holds no NUL character, which the code takes for an empty slot.
- Syntax quote, unquote, `%` arguments and tagged literals: not implemented by the reader, errors in the model.
- Round trips with comments, discards or metadata between the items: they are read by the specification, but printing never writes them.
- The `longjmp` of an error is a returned failure, and the failed assertion on an unknown dispatch character one more error.

Beans:

- Key functions other than `keyword`, a `transform`, prototype properties and the ordering of integer-like property names.
- Metadata, hashing, equality, printing, iterators and the sequences over beans and vectors.
- Changing an object from JavaScript after it was wrapped: the user's program goes through beans, vectors and transients only.
- ClojureScript's own transients, given on the snapshot branches, go on as the persistent map or vector they hold.

Timers and tasks:

- Ids beyond 2^53 - 1, after which they are issued again; failures to start a timer thread or to lock; the lengths of the delays.
- Sockets and other sources of tasks.

Dependencies: names from which a cycle can be reached, for which the sort does not return; parsing of dependency files, and foreign libraries' file lists.

Readers: closing, and encodings of bytes into text.

Child processes: forking, exec, waiting for the exit status and environment handling; the kernel's answers are parameters.

Compile cache:

- The compiler is one function of text, version and options: macros and other namespaces a file depends on are not part of its key, in the code as in the model.
- Analysis caches, source maps, compiled files beside their source on the classpath, and files without a cache path.
- A required file whose text declares another namespace than the one it is required as.
- Loads are atomic; `CompileCache.EditDuringLoad` says what else can happen.

Sessions: the current namespace and everything defined by evaluated code is shared by all sessions in the code; an execution is any function of the session's own vars. Leaving the process on an error outside the REPL is not modelled.

Not modelled at all: JavaScriptCore, HTTP, zip and ICU calls, option parsing, printing and themes, the ClojureScript compiler and analyzer, and small string helpers.
