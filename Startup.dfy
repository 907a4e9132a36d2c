/**
 * The initial ordering of the registry, `Program::get_workspaces`
 * (src/main.rs:25-38), on the workspace list that the window manager reports.
 * The query itself is not modelled: its result is the parameter.
 */
module Startup {
  import opened Wrappers
  import opened Registry

  /** One workspace of the reply: its name and whether it has the focus. */
  datatype WorkspaceInfo = WorkspaceInfo(name: string, focused: bool)

  /** The name of the first focused workspace, as `iter().find(|wp| wp.focused)` (src/main.rs:28-33). */
  function FindFocused(ws: seq<WorkspaceInfo>): (r: Option<string>)
    ensures r.None? <==> forall i :: 0 <= i < |ws| ==> !ws[i].focused
    ensures r.Some? ==>
      exists i :: 0 <= i < |ws| && ws[i].focused && ws[i].name == r.value &&
        forall j :: 0 <= j < i ==> !ws[j].focused
    decreases |ws|
  {
    if ws == [] then None
    else if ws[0].focused then Some(ws[0].name)
    else
      var r := FindFocused(ws[1..]);
      assert forall i :: 1 <= i < |ws| ==> ws[i] == ws[1..][i - 1];
      if r.Some? then
        var k :| 0 <= k < |ws| - 1 && ws[1..][k].focused && ws[1..][k].name == r.value &&
          forall j :: 0 <= j < k ==> !ws[1..][j].focused;
        assert ws[k + 1].focused && ws[k + 1].name == r.value;
        assert forall j :: 1 <= j < k + 1 ==> !ws[j].focused;
        r
      else r
  }

  /** The names in reply order. */
  function Names(ws: seq<WorkspaceInfo>): seq<string>
    decreases |ws|
  {
    if ws == [] then [] else Names(ws[..|ws| - 1]) + [ws[|ws| - 1].name]
  }

  /** `collect()` into a `LinkedHashSet`: each name inserted in turn (src/main.rs:34-35). */
  function Collect(ws: seq<WorkspaceInfo>): seq<string>
    decreases |ws|
  {
    if ws == [] then [] else Insert(Collect(ws[..|ws| - 1]), ws[|ws| - 1].name)
  }

  /** The registry `get_workspaces` returns, or `None` where its `unwrap` panics. */
  function InitialRegistry(ws: seq<WorkspaceInfo>): Option<seq<string>> {
    match FindFocused(ws)
    case None => None
    case Some(active) => Some(Insert(Collect(ws), active))
  }

  lemma {:induction false} CollectShape(ws: seq<WorkspaceInfo>)
    ensures NoDup(Collect(ws))
    ensures forall y :: y in Collect(ws) <==> y in Names(ws)
    decreases |ws|
  {
    if ws != [] {
      CollectShape(ws[..|ws| - 1]);
    }
  }

  /**
   * The initial registry exists exactly when some workspace is focused; it is
   * then duplicate-free, holds exactly the reported names and ends with the
   * focused one, so that the first tab press leaves it.
   */
  lemma InitialRegistryShape(ws: seq<WorkspaceInfo>)
    ensures InitialRegistry(ws).None? <==> forall i :: 0 <= i < |ws| ==> !ws[i].focused
    ensures InitialRegistry(ws).Some? ==>
      var r := InitialRegistry(ws).value;
      NoDup(r) && (forall y :: y in r <==> y in Names(ws)) &&
      |r| > 0 && r[|r| - 1] == FindFocused(ws).value
  {
    CollectShape(ws);
    if FindFocused(ws).Some? {
      var i :| 0 <= i < |ws| && ws[i].focused && ws[i].name == FindFocused(ws).value;
      NameListed(ws, i);
    }
  }

  /**
   * Distinct names are collected in reply order, so the startup registry is
   * the reply order with the focused workspace moved to the end.
   */
  lemma {:induction false} CollectInOrder(ws: seq<WorkspaceInfo>)
    requires NoDup(Names(ws))
    ensures Collect(ws) == Names(ws)
    decreases |ws|
  {
    if ws != [] {
      var init, last := ws[..|ws| - 1], ws[|ws| - 1].name;
      var names := Names(init);
      assert Names(ws) == names + [last];
      assert NoDup(names) by {
        forall i, j | 0 <= i < j < |names| ensures names[i] != names[j] {
          assert Names(ws)[i] == names[i] && Names(ws)[j] == names[j];
        }
      }
      assert last !in names by {
        forall k | 0 <= k < |names| ensures names[k] != last {
          assert Names(ws)[k] == names[k] && Names(ws)[|names|] == last;
        }
      }
      CollectInOrder(init);
      InsertAbsent(names, last);
    }
  }

  /** With distinct names: the reply order, the focused workspace moved last. */
  lemma InitialRegistryOrder(ws: seq<WorkspaceInfo>)
    requires NoDup(Names(ws)) && FindFocused(ws).Some?
    ensures var active := FindFocused(ws).value;
      InitialRegistry(ws) == Some(Remove(Names(ws), active) + [active])
  {
    CollectInOrder(ws);
  }

  lemma {:induction false} NameListed(ws: seq<WorkspaceInfo>, i: nat)
    requires i < |ws|
    ensures ws[i].name in Names(ws)
    decreases |ws|
  {
    if i < |ws| - 1 {
      NameListed(ws[..|ws| - 1], i);
    }
  }

  /** `get_workspaces` with its two passes over the reply. */
  method GetWorkspaces(ws: seq<WorkspaceInfo>) returns (r: Option<seq<string>>)
    ensures r == InitialRegistry(ws)
  {
    var i := 0;
    while i < |ws| && !ws[i].focused
      invariant 0 <= i <= |ws|
      invariant forall j :: 0 <= j < i ==> !ws[j].focused
    {
      i := i + 1;
    }
    if i == |ws| {
      return None;
    }
    var active := ws[i].name;
    var workspaces: seq<string> := [];
    for k := 0 to |ws|
      invariant workspaces == Collect(ws[..k])
    {
      assert ws[..k + 1][..k] == ws[..k];
      workspaces := Insert(workspaces, ws[k].name);
    }
    assert ws[..|ws|] == ws;
    r := Some(Insert(workspaces, active));
  }
}
