/**
 * The tab-cycle controller and the binding-event dispatcher of
 * `Program::handle_binding_event` (src/main.rs:54-98), as functions over the
 * two fields the method updates: the registry `workspaces` and the optional
 * stack `workspace_tab_stack` (src/main.rs:10-11).
 *
 * The class `Switcher.Program` performs these transitions in place; the
 * functions here specify it and carry the lemmas.
 */
module Controller {
  import opened Wrappers
  import opened Registry
  import opened Tokenizer

  /** `ENHANCE_KEYWORD` (src/main.rs:6). */
  const EnhanceKeyword: string := "enhanced"

  /** The words that make a tab press, and the words that make a direct workspace switch. */
  const TabWords: seq<string> := ["exec", EnhanceKeyword, "workspace", "tab"]
  const LearnWords: seq<string> := ["workspace", "number"]

  /**
   * With `LearnWords`, the word list whose prefixes make the source read a
   * missing `words[1]`, `words[2]` or `words[3]`.
   */
  const TabPrefix: seq<string> := ["exec", EnhanceKeyword, "workspace"]

  /** `workspace_tab_stack`: `None` is `Idle`, `Some(stack)` is `Cycling(stack)`. */
  datatype TabState = Idle | Cycling(stack: seq<string>)

  /** The two fields of `Program` that the event handler updates. */
  datatype Config = Config(registry: seq<string>, tab: TabState)

  /**
   * The outcome of one binding event: `Panic` when an index into the word
   * list is out of bounds (the process aborts, nothing was changed), else
   * the outbound command, if any.
   */
  datatype Response = Panic | Handled(command: Option<string>)

  /**
   * The invariant the handler keeps: the registry has no duplicates, a
   * cycling stack is shorter than the registry (so the `nth(stack.len())`
   * at src/main.rs:63 always finds an element) and holds only known names.
   */
  predicate Valid(c: Config) {
    NoDup(c.registry) &&
    (c.tab.Cycling? ==>
      |c.tab.stack| < |c.registry| &&
      forall i :: 0 <= i < |c.tab.stack| ==> c.tab.stack[i] in c.registry)
  }

  /** The command sent to switch workspace (src/main.rs:88). */
  function SwitchCommand(target: string): string {
    "workspace number \"" + target + "\""
  }

  /**
   * A tab press (src/main.rs:68-85) over registry `r`: the workspace to switch
   * to, if any, and the new stack. The registry is not changed.
   */
  function Tab(r: seq<string>, st: TabState): (res: (Option<string>, TabState))
    ensures |r| <= 1 ==> res == (None, st)
    ensures |r| > 1 ==> res.0.Some? && res.1.Cycling?
    ensures |r| > 1 && Valid(Config(r, st)) ==> res.0.value in r && Valid(Config(r, res.1))
  {
    if |r| <= 1 then (None, st)
    else match st
      case Idle =>
        var stack := r[..|r| - 1];
        (Some(stack[|stack| - 1]), Cycling(stack[..|stack| - 1]))
      case Cycling(s) =>
        if |s| > 0 then (Some(s[|s| - 1]), Cycling(s[..|s| - 1]))
        else (Some(r[|r| - 1]), Cycling(r[..|r| - 1]))
  }

  /**
   * The commit event "exec enhanced super" (src/main.rs:58-66): the workspace
   * landed on, at position `|stack|` of the registry, is inserted again and so
   * becomes the last one; the cycle ends.
   */
  function Commit(c: Config): (c': Config)
    requires c.tab.Cycling? ==> |c.tab.stack| < |c.registry|
    ensures c'.tab == Idle
    ensures c.tab.Idle? ==> c'.registry == c.registry
    ensures c.tab.Cycling? ==>
      var landed := c.registry[|c.tab.stack|];
      |c'.registry| > 0 && c'.registry[|c'.registry| - 1] == landed &&
      Remove(c'.registry, landed) == Remove(c.registry, landed)
    ensures forall y :: y in c'.registry <==> y in c.registry
    ensures NoDup(c.registry) ==> NoDup(c'.registry) && |c'.registry| == |c.registry|
  {
    match c.tab
    case Idle => c
    case Cycling(s) =>
      var landed := c.registry[|s|];
      InsertKeepsOthers(c.registry, landed);
      InsertLength(c.registry, landed);
      Config(Insert(c.registry, landed), Idle)
  }

  /**
   * A direct switch "workspace number X" (src/main.rs:93-96): X is inserted,
   * appended when new and moved to the end when known; the stack is kept.
   */
  function Learn(c: Config, id: string): (c': Config)
    ensures c'.tab == c.tab
    ensures |c'.registry| > 0 && c'.registry[|c'.registry| - 1] == id
    ensures Remove(c'.registry, id) == Remove(c.registry, id)
    ensures id !in c.registry ==> c'.registry == c.registry + [id]
    ensures Valid(c) ==> Valid(c') && |c'.registry| >= |c.registry|
  {
    InsertKeepsOthers(c.registry, id);
    InsertLength(c.registry, id);
    if id !in c.registry then InsertAbsent(c.registry, id); Config(Insert(c.registry, id), c.tab)
    else Config(Insert(c.registry, id), c.tab)
  }

  /** `words` is a prefix of `pattern`. */
  predicate PrefixOf(words: seq<string>, pattern: seq<string>) {
    |words| <= |pattern| && forall i :: 0 <= i < |words| ==> words[i] == pattern[i]
  }

  /**
   * `handle_binding_event` after tokenizing (src/main.rs:56-97). Every read of
   * `words[k]` past the end is a `Panic`.
   */
  function Dispatch(words: seq<string>, c: Config): (out: (Response, Config))
    requires Valid(c)
    ensures Valid(out.1)
    ensures out.0.Panic? <==> PrefixOf(words, TabPrefix) || PrefixOf(words, LearnWords)
    ensures out.0.Panic? ==> out.1 == c
    ensures |out.1.registry| >= |c.registry|
    ensures forall y :: y in c.registry ==> y in out.1.registry
    ensures out.0.Handled? && out.0.command.Some? ==>
      |words| >= 4 && words[..4] == TabWords && out.1.registry == c.registry &&
      exists t :: t in c.registry && out.0.command.value == SwitchCommand(t)
  {
    if |words| == 0 then (Panic, c)
    else if words[0] == "exec" then
      if |words| < 2 then (Panic, c)
      else if words[1] != EnhanceKeyword then (Handled(None), c)
      else if |words| < 3 then (Panic, c)
      else if words[2] == "super" then (Handled(None), Commit(c))
      else if words[2] != "workspace" then (Handled(None), c)
      else if |words| < 4 then (Panic, c)
      else if words[3] != "tab" then (Handled(None), c)
      else
        var p := Tab(c.registry, c.tab);
        assert words[..4] == TabWords;
        (Handled(if p.0.Some? then Some(SwitchCommand(p.0.value)) else None), Config(c.registry, p.1))
    else if words[0] == "workspace" then
      if |words| < 2 then (Panic, c)
      else if words[1] != "number" then (Handled(None), c)
      else if |words| < 3 then (Panic, c)
      else (Handled(None), Learn(c, words[2]))
    else (Handled(None), c)
  }

  /** The word shapes the dispatcher acts on, word by word. */
  predicate IsCommit(words: seq<string>) {
    |words| >= 3 && words[0] == "exec" && words[1] == EnhanceKeyword && words[2] == "super"
  }

  predicate IsTabPress(words: seq<string>) {
    |words| >= 4 && words[0] == "exec" && words[1] == EnhanceKeyword && words[2] == "workspace" && words[3] == "tab"
  }

  predicate IsLearn(words: seq<string>) {
    |words| >= 3 && words[0] == "workspace" && words[1] == "number"
  }

  /**
   * Where each command goes: `exec enhanced super ...` commits,
   * `exec enhanced workspace tab ...` presses tab and sends the switch to its
   * target, `workspace number X ...` learns X, further words ignored; every
   * other word list that does not panic changes nothing and sends nothing.
   */
  lemma DispatchRoutes(words: seq<string>, c: Config)
    requires Valid(c)
    ensures IsCommit(words) ==> Dispatch(words, c) == (Handled(None), Commit(c))
    ensures IsTabPress(words) ==>
      var p := Tab(c.registry, c.tab);
      Dispatch(words, c) ==
        (Handled(if p.0.Some? then Some(SwitchCommand(p.0.value)) else None), Config(c.registry, p.1))
    ensures IsLearn(words) ==> Dispatch(words, c) == (Handled(None), Learn(c, words[2]))
    ensures !IsCommit(words) && !IsTabPress(words) && !IsLearn(words) && Dispatch(words, c).0.Handled? ==>
      Dispatch(words, c) == (Handled(None), c)
  {
    if |words| >= 1 && words[0] == "exec" {
      if |words| >= 3 && words[1] == EnhanceKeyword && words[2] == "workspace" && |words| >= 4 {
        assert words[3] == "tab" ==> IsTabPress(words);
      }
    }
  }

  /** `handle_binding_event(s)`: tokenize, then dispatch. */
  function HandleEvent(s: string, c: Config): (Response, Config)
    requires Valid(c)
  {
    Dispatch(Tokenize(s), c)
  }
}
