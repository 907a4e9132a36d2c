/**
 * `Program` (src/main.rs:8-99): the switcher object whose event handler
 * updates its two fields in place. The connection to the window manager is
 * not a field here: the outbound command is returned instead of sent.
 */
module Switcher {
  import opened Wrappers
  import opened Registry
  import opened Tokenizer
  import opened Controller
  import opened Startup

  class Program {
    var workspaces: seq<string>
    var workspaceTabStack: TabState

    function State(): Config
      reads this
    {
      Config(workspaces, workspaceTabStack)
    }

    ghost predicate Valid()
      reads this
    {
      Controller.Valid(State())
    }

    constructor (initial: seq<string>)
      requires NoDup(initial)
      ensures Valid() && State() == Config(initial, Idle)
    {
      workspaces := initial;
      workspaceTabStack := Idle;
    }

    /** `Program::new` (src/main.rs:15-23): `null` where `get_workspaces` panics. */
    static method New(reply: seq<WorkspaceInfo>) returns (p: Program?)
      ensures p == null <==> InitialRegistry(reply).None?
      ensures p != null ==>
        fresh(p) && p.Valid() && p.State() == Config(InitialRegistry(reply).value, Idle)
    {
      var initial := GetWorkspaces(reply);
      if initial.None? {
        return null;
      }
      InitialRegistryShape(reply);
      p := new Program(initial.value);
    }

    /** The "super" branch (src/main.rs:58-66). */
    method Commit()
      requires Valid()
      modifies this
      ensures Valid()
      ensures State() == Controller.Commit(old(State()))
    {
      match workspaceTabStack
      case Idle =>
      case Cycling(stack) =>
        workspaces := Insert(workspaces, workspaces[|stack|]);
        workspaceTabStack := Idle;
    }

    /** The "workspace tab" branch (src/main.rs:68-85), returning the target instead of sending it. */
    method TabPress() returns (target: Option<string>)
      requires Valid()
      modifies this
      ensures Valid()
      ensures workspaces == old(workspaces)
      ensures (target, workspaceTabStack) == Tab(old(workspaces), old(workspaceTabStack))
    {
      target := None;
      if |workspaces| > 1 {
        match workspaceTabStack
        case Cycling(stack) =>
          if |stack| > 0 {
            target := Some(stack[|stack| - 1]);
            workspaceTabStack := Cycling(stack[..|stack| - 1]);
          } else {
            // reset the stack to the whole registry and pop its last workspace
            var rebuilt := workspaces;
            target := Some(rebuilt[|rebuilt| - 1]);
            workspaceTabStack := Cycling(rebuilt[..|rebuilt| - 1]);
          }
        case Idle =>
          var stack := workspaces;
          stack := stack[..|stack| - 1]; // drop the current workspace
          target := Some(stack[|stack| - 1]);
          workspaceTabStack := Cycling(stack[..|stack| - 1]);
      }
    }

    /** The "workspace number" branch (src/main.rs:93-96). */
    method Learn(id: string)
      requires Valid()
      modifies this
      ensures Valid()
      ensures State() == Controller.Learn(old(State()), id)
    {
      ghost var learned := Controller.Learn(State(), id);
      workspaces := Insert(workspaces, id);
      assert State() == learned;
    }

    /**
     * `handle_binding_event` (src/main.rs:54-98): `Panic` where the source
     * indexes past the end of the words, with nothing changed.
     */
    method HandleBindingEvent(s: string) returns (r: Response)
      requires Valid()
      modifies this
      ensures Valid()
      ensures (r, State()) == HandleEvent(s, old(State()))
    {
      var words := ParseCommandWords(s);
      if |words| < 1 {
        return Panic;
      }
      r := Handled(None);
      if words[0] == "exec" {
        if |words| < 2 {
          return Panic;
        }
        if words[1] == EnhanceKeyword {
          if |words| < 3 {
            return Panic;
          }
          if words[2] == "super" {
            Commit();
          } else if words[2] == "workspace" {
            if |words| < 4 {
              return Panic;
            }
            if words[3] == "tab" {
              var target := TabPress();
              if target.Some? {
                r := Handled(Some(SwitchCommand(target.value)));
              }
            }
          }
        }
      } else if words[0] == "workspace" {
        if |words| < 2 {
          return Panic;
        }
        if words[1] == "number" {
          if |words| < 3 {
            return Panic;
          }
          Learn(words[2]);
        }
      }
    }
  }
}
