# stockfish-native: the command dispatcher and the text parsers

This project models, in Dafny, the core of a client library that drives the
Stockfish chess engine as a child process over its line-oriented text
protocol.

- **Engine.dfy** models the `Stockfish` class of `src/index.ts` as a class.
  It keeps the source's fields: the FIFO `queue` of commands, the `running`
  flag, the `buffer` of output gathered so far (`partialResponse`) and
  `didQuit`. The model adds three fields of its own:
  - `active` is the command in flight, which the source holds only as the
    `current` entry captured by the listener closures (src/index.ts:74-77);
  - `nextId` numbers the commands, so that each one has a ticket;
  - `resolved` is described with the logs below.

  Three logs stand in for the process and the promises:
  - `written` (ghost) records what is written to the engine's input;
  - `resolved` records each promise that resolves, as a pair of the
    command's ticket and the text it resolved with;
  - `issued` and `dispatched` (ghost) record every command enqueued and every
    command put in flight, in order.

  A chunk of engine output is a call of `Feed`. The process closing is a call
  of `Close`. `Do` enqueues a command. `AdvanceQueue` dispatches one. `Eval`
  and `Quit` are the two public commands. The constructor waits for the
  engine's banner. `QuitResolved` is the part of `quit()` that runs after
  its promise resolves. A command's completion test is the datatype `Done`:
  `Contains(s)` stands for `indexOf(s) > -1`, and `Always` stands for
  `() => true`.
- **ParserUtils.dfy** models `src/parser-utils.ts`: `trim`, `split`,
  `endAfterLabel`, `sections`, `lines` and `parseLabeled`, as functions over
  `seq<char>`. `EOL` is fixed to a line feed.
- **Strings.dfy** models the JavaScript string built-ins those functions
  rest on. These are `indexOf` and `split` with a literal separator, plus
  stripping a set of characters from both ends. That stripping is what the
  anchored `replace` calls of `trim` and `String.prototype.trim` do. It also
  defines `join`, which no parser calls; the round-trip lemmas use it to
  state that `split` undoes it.
- **Wrappers.dfy** holds `Option` and `Result`.

Some behaviour of the source worth stating up front:

- A command resolves with the whole untrimmed buffer (`resolve(result)`,
  src/index.ts:53-54).
- A `null` command still waits for its completion test. It only skips the
  write (src/index.ts:97-99).
- The process closing feeds one `"\n"` chunk and never sets `didQuit`
  (src/index.ts:93-95). Only the continuation of `quit()` sets it
  (src/index.ts:39-40).
- `board`, `position`, `newgame`, `kill` and the parsing of `eval`'s table
  do not exist in `src/index.ts`. `eval` only
  waits for its output (src/index.ts:35 is a TODO).

## Model

| member | source | states |
|---|---|---|
| `Engine.Stockfish.constructor` | src/index.ts:19-29 | A new session has one pending command, ticket 0, with no command text and the banner test. It is in flight at once, nothing has been written, nothing has resolved and `didQuit` is false. |
| `Engine.Stockfish.Do` | src/index.ts:43-66 | After `quit()` has completed, the call fails with `QuitCalled` and the queue, buffer, flags and logs are unchanged. Otherwise the new entry (the next ticket) joins the end of the pending commands and the call returns its ticket. If a command was in flight, the entry joins the end of the queue, and the command in flight and the write log are unchanged. Otherwise the entry is put in flight and written at once, and the queue stays empty. |
| `Engine.Stockfish.AdvanceQueue` | src/index.ts:68-101 | While a command is in flight, or the queue is empty, nothing changes. Otherwise the head of the queue leaves it, becomes the command in flight and `running` is set. What it writes is appended to the log. The object invariant (idle implies empty queue) is restored. |
| `Engine.Stockfish.Feed` | src/index.ts:77-90 | With nothing in flight, the chunk is dropped. Otherwise the buffer becomes old buffer + chunk and the test sees that whole buffer. On rejection nothing else changes. On acceptance, the command in flight resolves with the untrimmed buffer, the buffer becomes "", and the pending commands lose their head, so the queue loses its head if it has one. `running` then stays true exactly when the queue was non-empty, and the next command's text is written. |
| `Engine.Stockfish.Close` | src/index.ts:93-95 | The process closing acts exactly as one final `"\n"` chunk given to the command in flight. |
| `Engine.Stockfish.Eval` | src/index.ts:30-37 | Enqueues `eval` with the test "output contains `Total evaluation:`", or fails after `quit()` has completed, with `Do`'s effects. |
| `Engine.Stockfish.Quit` | src/index.ts:38-41 | Enqueues `quit` with a test that accepts any output, or fails after `quit()` has completed. It records the ticket whose resolution will set `didQuit`. |
| `Engine.Stockfish.QuitResolved` | src/index.ts:39-40 | Only once the quit ticket has resolved, `didQuit` becomes true. The queue, buffer and logs are unchanged. |
| `Engine.WritesAppend` | src/index.ts:97-99 | Dispatching two runs of entries writes the first run's commands and then the second's. |
| `Engine.WritesCommands` | src/index.ts:97-99 | A run of entries writes at most one line each. It writes nothing when every command is absent. When every command is present and non-empty, it writes exactly those commands, each followed by `EOL`, in order. |
| `Engine.WritesFollowEnqueueOrder` | src/index.ts:73-99 | In every valid state, the write log followed by what the queue will write equals what all enqueued commands write, in enqueue order (FIFO). |
| `Engine.ResolvedInTicketOrder` | src/index.ts:74-88 | In every valid state, the i-th resolved promise is that of ticket i: commands complete in enqueue order, one at a time. |
| `Engine.AcceptsMeaning` | src/index.ts:33 | `Contains(s)` accepts an output exactly when `s` occurs in it. `Always` accepts any output. |
| `Engine.AcceptsAppend` | src/index.ts:77-80 | An output that a completion test accepts is still accepted with more output after it. |
| `Engine.AcceptsBanner` | src/index.ts:22-28 | The start-up test accepts any output that contains the banner line. |
| `Engine.QuitThenEval` | src/__tests__/index.test.ts:17-20 | A new session, then `quit()`, the banner chunk and the process closing, then `eval()`: the eval fails with `QuitCalled`. The banner wait resolves with the banner chunk. `quit` resolves with the closing `"\n"`, because in the model only the command in flight hears the close. |
| `Strings.IndexOf` | src/index.ts:33 | `indexOf` returns -1 exactly when the needle occurs nowhere. Otherwise it returns an index where the needle occurs, with no occurrence before it. |
| `Strings.Fields` | src/parser-utils.ts:9-11 | A literal-separator `split` returns at least one field. Joining the fields with the separator gives back the text, and no field contains the separator. There is one field exactly when the separator does not occur. Otherwise the first field ends at the separator's first occurrence. |
| `Strings.FieldsLeftmost` | src/parser-utils.ts:9-11 | Every field but the last ends at the first occurrence of the separator in the text that remains from that field on. So each match is the leftmost one, even for a separator that overlaps itself, such as `EOL EOL`. |
| `Strings.FieldsCount` | src/parser-utils.ts:9-11 | `split` returns one field more than the number of leftmost non-overlapping separator occurrences, counted by an independent scan. |
| `Strings.CountChar` | src/parser-utils.ts:20 | The number of occurrences of a one-character separator equals the number of times that character occurs in the text. |
| `Strings.FieldsOfJoin` | src/parser-utils.ts:9-11 | For a one-character separator that no field contains, `split` undoes `join`. |
| `Strings.StripSlice` | src/parser-utils.ts:3-7 | Stripping keeps a contiguous slice of the text. Everything removed before it and after it is in the stripped set. The result is empty exactly when the whole text is in the set. |
| `Strings.StripIdempotent` | src/parser-utils.ts:3-7 | Stripping a stripped text changes nothing. |
| `ParserUtils.Trim` | src/parser-utils.ts:3-7 | `trim(text, d)` neither starts nor ends with `d`. |
| `ParserUtils.Split` | src/parser-utils.ts:9-11 | A non-empty delimiter gives one field more than the delimiter occurrences. The empty delimiter gives one field per character. Every field has no whitespace at either end. |
| `ParserUtils.SplitOfJoin` | src/parser-utils.ts:9-11 | For any one-character delimiter that no field contains, `split` of the fields joined with it gives back every field, whitespace-trimmed. |
| `ParserUtils.Lines` | src/parser-utils.ts:20 | `lines` returns one line more than there are line feeds in the content. |
| `ParserUtils.LinesOfJoin` | src/parser-utils.ts:20 | Lines without line feeds, joined with `EOL` and split again by `lines`, come back as the same lines, trimmed. |
| `ParserUtils.Sections` | src/parser-utils.ts:17-18 | `sections` returns one block more than there are non-overlapping `EOL EOL` separators. |
| `ParserUtils.EndAfterLabelMeaning` | src/parser-utils.ts:13-15 | `endAfterLabel(label)(text)` holds exactly when `text` contains `label: `, then a run of characters none of which ends a line, then `EOL`. |
| `ParserUtils.EndAfterLabelAppend` | src/parser-utils.ts:13-15 | Once `endAfterLabel` holds, it still holds when more text is appended, however the output is chunked. |
| `ParserUtils.LabelWithoutColon` | src/parser-utils.ts:24 | A line without a colon gives the key "the whole line, trimmed" and an absent value. |
| `ParserUtils.LabelWithColon` | src/parser-utils.ts:24 | For a line with a colon, the key is the trimmed text before the first colon. The value is the trimmed text between the first colon and the second one, or the end of the line. |
| `ParserUtils.AssignSize` | src/parser-utils.ts:23-27 | Folding n lines into a map adds at most n keys. |
| `ParserUtils.AssignKeys` | src/parser-utils.ts:23-27 | The keys after the fold are the keys before it plus every line's label. |
| `ParserUtils.AssignUntouched` | src/parser-utils.ts:23-27 | A key that no line labels keeps its earlier value. |
| `ParserUtils.AssignLastWins` | src/parser-utils.ts:23-27 | A label's final value comes from the last line that carries that label. |
| `ParserUtils.ParseLabeled` | src/parser-utils.ts:22-28 | `parseLabeled` has at most as many keys as the data has lines. |
| `ParserUtils.ParseLabeledKeys` | src/parser-utils.ts:22-28 | The keys of `parseLabeled(data)` are exactly the labels of the lines of `data`. |
| `ParserUtils.ParseLabeledLastWins` | src/parser-utils.ts:22-28 | A later line with the same label overwrites an earlier one: each label maps to the value of its last line. |

## Left out

- Process plumbing: `spawn`, `stdin.write`, listener registration and the
  promises are not modelled. The model replaces them with the `written`
  log, the `Feed` and `Close` calls and the `resolved` log. No clock,
  I/O or concurrency is modelled. The order of events is whatever order the
  caller of the model chooses.
- Engine.Stockfish.Feed: models one listener per command in flight. The
  source removes `"data"` listeners from the process object instead of from
  its output stream (src/index.ts:85). In Node, the listeners of earlier
  commands would therefore keep receiving chunks, and every dispatched
  command's close handler would run on close. The model does not reproduce
  that event-emitter behaviour. It also drops chunks that arrive while
  nothing is in flight.
- Engine.Stockfish.Close: gives the final `"\n"` only to the command in
  flight, for the same reason. In the source every close handler added by
  an earlier dispatch also appends a `"\n"` to the shared buffer. So after
  `quit()`, the banner and the close, `quit` resolves with `"\n\n"` there,
  while `Engine.QuitThenEval` shows `"\n"`.
- Engine.Stockfish.Quit: the continuation that sets `didQuit` is the separate
  step `QuitResolved`. The model does not capture the microtask scheduling
  that decides when that step runs.
- ParserUtils.Trim: the delimiter is one literal character. The source
  interpolates it into a regular expression (`^d*`, `d*$`), which only means
  "a run of d" for a single character that is not a metacharacter.
- ParserUtils.EndAfterLabel: the label is literal text, not regular-expression
  source.
- ParserUtils.Split: the delimiter is a string. The `RegExp` form of the
  source's signature is never used by the parsers.
- Characters are Unicode scalar values, not UTF-16 code units. This matters
  for text outside the Basic Multilingual Plane in two places. `split("")`
  there yields one field per surrogate. A `trim` delimiter there becomes a
  surrogate pair in a regular expression without the `u` flag, so its `*`
  repeats only the low surrogate.
- ParserUtils.ParseLabeled: the result is a Dafny map. A line labelled
  `__proto__` would change the prototype of the source's plain object rather
  than add a key; that object behaviour is not modelled.
- `src/test-utils.ts` is not part of this model; it only picks an executable
  path per platform.
- The tests' `board`, `position`, `newgame`, `kill` and constructor options
  have no code in `src/index.ts`, so there is nothing to model for them.
