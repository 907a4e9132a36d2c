# i3 "Alt-Tab" workspace switcher — a Dafny model

The program listens to i3 binding events. A press of the bound "tab" chord
(`exec enhanced workspace tab`) switches to the previously used workspace and,
pressed again, walks further back through the workspaces in most-recently-used
order. Releasing the modifier (`exec enhanced super`) commits the workspace
landed on as the most recent one. A direct switch (`workspace number X`) teaches
the program about workspace X.

The model covers the whole of that logic in `src/main.rs`:

- `Tokenizer` — `parse_command_words`, as a method with the source's loop
  (`ParseCommandWords`) proved equal to a functional state machine
  (`Step`/`Run`/`Finish`), plus character-level descriptions of its output.
- `Registry` — the `LinkedHashSet<String>` of workspaces as a duplicate-free
  sequence. `Insert` removes the name if present and appends it: the
  `linked_hash_set` crate's `insert` moves a known value to the end, and the
  program relies on that (the focused workspace is inserted last at startup,
  and a tab press pops the last element as "the current workspace").
- `Controller` — the tab press, the commit and the learn transitions and the
  dispatcher of `handle_binding_event`, as functions over the pair
  (registry, tab state), with the invariant `Valid` they keep.
- `Cycle` — what sequences of presses and commits do.
- `Events` — whole events, from the raw string to the new state and the
  outbound command, including the round trip of that command.
- `Startup` — the initial ordering done by `get_workspaces`, as a method with
  the source's two passes proved against a fold.
- `Switcher` — the class `Program` whose methods update `workspaces` and
  `workspaceTabStack` in place, each proved to perform the corresponding
  `Controller` transition and to keep `Valid`.

Where the source reads `words[k]` past the end of the word list it panics; the
model returns `Panic` and changes nothing. The outbound `run_command` is
replaced by returning the command string `workspace number "<target>"`.

Behaviour the model follows because the code has it:

- Re-inserting a known workspace moves it to the end; it is not a no-op.
  The commit step therefore makes the landed-on workspace the most recent one.
- Every space outside quotes ends a word, so two spaces in a row give an
  empty word (`a  b` is `["a", "", "b"]`), and so does a space right after a
  closing quote.
- When the stack is used up, the next press rebuilds it from the whole
  registry and pops its last element. With registry `[a, b, c]` the presses
  land on b, a, c, b, … (the third press goes back to c, the starting
  workspace, not to b).

## Model

| member | source | states |
|---|---|---|
| Tokenizer.ParseCommandWords | src/main.rs:101-136 | the loop over the characters returns exactly the words of the functional state machine `Tokenize` |
| Tokenizer.RunShape | src/main.rs:107-133 | after any prefix, quote mode is on iff an odd number of quotes was read; finished words plus the current word concatenate to the kept characters; there is one finished word per break; the current word is the kept text after the last break; no word holds a quote |
| Tokenizer.TokensQuoteFree | src/main.rs:113-128 | no emitted word contains a double quote |
| Tokenizer.TokensConcat | src/main.rs:107-135 | the words concatenated are the input without its quotes and without its unquoted spaces |
| Tokenizer.TokensCount | src/main.rs:113-133 | one word per closing quote and per unquoted space, empty or not, plus one for the trailing word only when it is non-empty |
| Tokenizer.TokenizeJoin | src/main.rs:123-133 | plain words joined by single spaces come back unchanged, empty words between two spaces included |
| Tokenizer.TokenizePlainWord | src/main.rs:126-133 | a non-empty string with no space and no quote is one word, itself |
| Tokenizer.TokenizeEmpty | src/main.rs:131-135 | the empty command has no words |
| Tokenizer.TokenizeQuotedLast | src/main.rs:113-125 | a quoted name after plain words is one word, spaces and emptiness included |
| Tokenizer.TokenizeMidWordQuote | src/main.rs:121-122 | a quote inside a word only switches mode: `ab"c d"` is the single word `abc d` |
| Tokenizer.TokenizeDoubleSpace | src/main.rs:123-125 | `a  b` gives `a`, an empty word, `b` |
| Registry.Insert | src/main.rs:95 | the inserted name is last; the members are the old ones plus it; no duplicates are introduced |
| Registry.InsertAbsent | src/main.rs:95 | a new name is appended, the old registry kept as a prefix |
| Registry.InsertLength | src/main.rs:95 | the registry grows by one for a new name and, when duplicate-free, keeps its length for a known one |
| Registry.InsertKeepsOthers | src/main.rs:63 | the relative order of all other members is unchanged |
| Registry.InsertLast | src/main.rs:63 | re-inserting the name that is already last (as the commit does after a full cycle) changes nothing |
| Registry.InsertIdempotent | src/main.rs:95 | inserting a name twice is inserting it once |
| Controller.Tab | src/main.rs:68-85 | with at most one workspace nothing happens and no target is produced; otherwise a target is produced, it is a known workspace, the stack becomes a cycling one and the invariant is kept |
| Controller.Commit | src/main.rs:58-66 | the cycle ends; from idle the registry is unchanged; from a cycle the workspace at position `len(stack)` becomes last, the other members keep their order, members and length are unchanged and no duplicate appears |
| Controller.Learn | src/main.rs:93-96 | the name becomes last, the others keep their order, a new name is appended, the stack is untouched, the invariant is kept and the registry does not shrink |
| Controller.Dispatch | src/main.rs:56-97 | it panics exactly when the words are a prefix of `exec enhanced workspace` or of `workspace number`, and then changes nothing; the invariant holds after every event; the registry never shrinks nor forgets a name; a switch command is produced only by `exec enhanced workspace tab`, leaves the registry alone and names a known workspace |
| Controller.DispatchRoutes | src/main.rs:56-97 | `exec enhanced super ...` commits; `exec enhanced workspace tab ...` presses tab and sends the switch to its target; `workspace number X ...` learns X, further words ignored; every other word list that does not panic changes nothing and sends nothing |
| Cycle.TabLandsAtStackLength | src/main.rs:63-85 | with an unchanged registry a press keeps the stack a proper prefix of it and lands on `registry[len(stack)]`, the element the commit re-inserts |
| Cycle.FirstPressLeavesCurrent | src/main.rs:80-84 | the first press never targets the current (last) workspace |
| Cycle.TabThenCommit | src/main.rs:58-85 | a commit after a press moves the workspace switched to to the end of the registry |
| Cycle.AltTabSwaps | src/main.rs:58-84 | one press and a commit from idle swap the last two workspaces and leave the rest in place |
| Cycle.AltTabTwiceRestores | src/main.rs:58-84 | two quick press-and-commit rounds restore the registry |
| Cycle.FullCycle | src/main.rs:69-85 | from idle, n presses over n workspaces visit r[n-2] down to r[0] and then r[n-1], every workspace exactly once, ending where the cycle began; the next n presses repeat that walk |
| Cycle.CommitAfterFullCycle | src/main.rs:58-85 | after a full cycle of presses the stack is the registry minus its last element, and committing there leaves the registry unchanged |
| Cycle.ThreeWorkspaceWalk | src/main.rs:69-85 | with `[a, b, c]` the presses land on b, a, c, b and the stack is empty after the second |
| Events.SwitchCommandTokens | src/main.rs:88 | the outbound command for a quote-free name, the empty one included, tokenizes to `workspace`, `number`, the name |
| Events.SwitchCommandLearned | src/main.rs:93-95 | feeding the outbound command back as an event inserts exactly that name and produces no command |
| Events.TabEventGuard | src/main.rs:67-68 | with at most one workspace the tab event changes nothing and sends nothing |
| Events.TabEventSwitches | src/main.rs:67-89 | with two or more workspaces the tab event sends a switch to a known workspace, keeps the registry and, for a quote-free name, the command reads back as that name |
| Events.CommitEvent | src/main.rs:56-66 | the `exec enhanced super` event performs the commit and sends nothing |
| Events.LearnThenLoneTab | src/main.rs:93-96 | from an empty registry `workspace number 1` gives `[1]`, and a tab press then does nothing |
| Startup.FindFocused | src/main.rs:28-33 | none exactly when no workspace is focused; otherwise the name of the first focused one |
| Startup.CollectShape | src/main.rs:34-35 | the collected names have no duplicates and are exactly the reported names |
| Startup.CollectInOrder | src/main.rs:34-35 | when the reported names are distinct, they are collected in reply order |
| Startup.InitialRegistryOrder | src/main.rs:26-37 | when the reported names are distinct, the startup registry is the reply order with the focused workspace moved to the end |
| Startup.InitialRegistryShape | src/main.rs:28-37 | the startup registry exists iff some workspace is focused; it is duplicate-free, holds exactly the reported names and ends with the focused one |
| Startup.GetWorkspaces | src/main.rs:25-38 | the find pass and the collect pass compute the startup registry, none where the `unwrap` panics |
| Switcher.Program.constructor | src/main.rs:18-22 | a new program holds the given registry, is idle and valid |
| Switcher.Program.New | src/main.rs:15-23 | no program exactly where the startup fold panics; otherwise a fresh valid idle program over the startup registry |
| Switcher.Program.Commit | src/main.rs:58-66 | updates the fields in place exactly as `Controller.Commit` and keeps the invariant |
| Switcher.Program.TabPress | src/main.rs:68-85 | pops or rebuilds the stack in place exactly as `Controller.Tab`, returns its target, leaves the registry unchanged and keeps the invariant |
| Switcher.Program.Learn | src/main.rs:93-96 | updates the registry in place exactly as `Controller.Learn` and keeps the invariant |
| Switcher.Program.HandleBindingEvent | src/main.rs:54-98 | tokenizes and dispatches in place, with the response and new fields of `Controller.HandleEvent` and the invariant kept |

## Left out

- The connection to i3 (`I3Connection::connect`, the workspace query, `I3EventListener`, `subscribe`, `listen`): I/O. The query's reply is the parameter of `Startup.GetWorkspaces` and `Switcher.Program.New`; events arrive as the argument of `HandleBindingEvent`.
- `run_command` and the `unwrap` of its result: the command is returned as a string, and a failing command (an external fault) is not modelled.
- `main` and the `unreachable!()` for non-binding events: process plumbing.
- The hashing inside `LinkedHashSet`: only its ordering behaviour is modelled.
- Rust `char` and UTF-8: strings are sequences of `char`.
- Controller.Commit: requires that a cycling stack be shorter than the registry instead of modelling the `unwrap` at src/main.rs:63 failing, because `Valid`, kept by every event, proves that `unwrap` never fails.
- Cycle.Presses: defined only for registries of at least two workspaces, where every press produces a target.
- Startup.CollectInOrder: the reply order is stated only for distinct names (i3 names its workspaces uniquely); with a repeated name the fold still keeps the registry duplicate-free, placing that name where it was last reported.
