/**
 * Properties of the tab-cycle controller over several events: where a press
 * lands, what a commit after it does, and the order in which a run of presses
 * visits the registry (src/main.rs:58-85).
 */
module Cycle {
  import opened Wrappers
  import opened Registry
  import opened Controller

  /**
   * The stack is consistent with a registry that has not changed since the
   * cycle began: it is a prefix of the registry, shorter than it.
   */
  predicate Coherent(r: seq<string>, st: TabState) {
    st.Cycling? ==> |st.stack| < |r| && st.stack == r[..|st.stack|]
  }

  /**
   * With at least two workspaces and an unchanged registry, a press lands on
   * `registry[|stack|]` and the new stack is again a prefix: so the commit,
   * which re-inserts `registry[|stack|]`, commits the workspace last switched to.
   */
  lemma TabLandsAtStackLength(r: seq<string>, st: TabState)
    requires |r| >= 2 && Coherent(r, st)
    ensures var p := Tab(r, st);
      p.1.Cycling? && Coherent(r, p.1) && p.0 == Some(r[|p.1.stack|])
  {
    match st
    case Idle =>
      assert r[..|r| - 1][..|r| - 2] == r[..|r| - 2];
    case Cycling(s) =>
      if |s| > 0 {
        assert s[..|s| - 1] == r[..|s| - 1];
        assert s[|s| - 1] == r[|s| - 1];
      }
  }

  /** The first press never switches to the workspace currently shown (the last one). */
  lemma FirstPressLeavesCurrent(r: seq<string>)
    requires NoDup(r) && |r| >= 2
    ensures Tab(r, Idle).0.value != r[|r| - 1]
  {
    assert r[..|r| - 1][|r| - 2] == r[|r| - 2];
    assert r[|r| - 2] != r[|r| - 1];
  }

  /** A commit right after a press moves the workspace switched to to the end of the registry. */
  lemma TabThenCommit(r: seq<string>, st: TabState)
    requires NoDup(r) && |r| >= 2 && Coherent(r, st)
    ensures var p := Tab(r, st);
      |p.1.stack| < |r| &&
      Commit(Config(r, p.1)) == Config(Insert(r, p.0.value), Idle)
  {
    TabLandsAtStackLength(r, st);
  }

  /** One press and a commit, starting idle: the registry after the alt-tab. */
  function AltTab(r: seq<string>): (r': seq<string>)
    requires NoDup(r) && |r| >= 2
    ensures NoDup(r') && |r'| == |r|
  {
    Commit(Config(r, Tab(r, Idle).1)).registry
  }

  /** A single alt-tab swaps the two most recent workspaces and keeps the rest in place. */
  lemma AltTabSwaps(r: seq<string>)
    requires NoDup(r) && |r| >= 2
    ensures var n := |r|; AltTab(r) == r[..n - 2] + [r[n - 1], r[n - 2]]
  {
    var n := |r|;
    TabThenCommit(r, Idle);
    assert Tab(r, Idle).0.value == r[n - 2] by {
      assert r[..n - 1][n - 2] == r[n - 2];
    }
    RemoveSecondLast(r);
  }

  lemma RemoveSecondLast(r: seq<string>)
    requires NoDup(r) && |r| >= 2
    ensures Remove(r, r[|r| - 2]) == r[..|r| - 2] + [r[|r| - 1]]
  {
    var n := |r|;
    var x, y, init := r[n - 2], r[n - 1], r[..n - 2];
    SplitLastTwo(r);
    assert x !in init by {
      forall k | 0 <= k < |init| ensures init[k] != x {
        assert r[k] != r[n - 2];
      }
    }
    assert x != y;
    RemoveAppend(init + [x], [y], x);
    RemoveAppend(init, [x], x);
    RemoveAbsent(init, x);
    RemoveSingle(x);
    RemoveAbsent([y], x);
    assert init + [] == init;
  }

  lemma SplitLastTwo(r: seq<string>)
    requires |r| >= 2
    ensures r == r[..|r| - 2] + [r[|r| - 2]] + [r[|r| - 1]]
  {
  }

  lemma RemoveSingle(x: string)
    ensures Remove([x], x) == []
  {
    assert [x][1..] == [];
  }

  /** Two quick alt-tabs return the registry to where it was. */
  lemma AltTabTwiceRestores(r: seq<string>)
    requires NoDup(r) && |r| >= 2
    ensures AltTab(AltTab(r)) == r
  {
    AltTabSwaps(r);
    AltTabSwaps(AltTab(r));
    SwapLastTwiceRestores(r, AltTab(r));
  }

  lemma SwapLastTwiceRestores(r: seq<string>, r': seq<string>)
    requires |r| >= 2 && r' == r[..|r| - 2] + [r[|r| - 1], r[|r| - 2]]
    ensures r'[..|r'| - 2] + [r'[|r'| - 1], r'[|r'| - 2]] == r
  {
    var n := |r|;
    assert r'[..n - 2] == r[..n - 2];
    assert r == r[..n - 2] + [r[n - 2], r[n - 1]];
  }

  /**
   * `k` presses in a row over an unchanged registry: the workspaces switched
   * to, in order, and the stack left behind.
   */
  function Presses(r: seq<string>, st: TabState, k: nat): (seq<string>, TabState)
    requires |r| >= 2
    decreases k
  {
    if k == 0 then ([], st)
    else
      var p := Tab(r, st);
      var q := Presses(r, p.1, k - 1);
      ([p.0.value] + q.0, q.1)
  }

  /** `s` back to front. */
  function Reversed(s: seq<string>): seq<string>
    decreases |s|
  {
    if s == [] then [] else [s[|s| - 1]] + Reversed(s[..|s| - 1])
  }

  lemma {:induction false} ReversedMultiset(s: seq<string>)
    ensures multiset(Reversed(s)) == multiset(s)
    decreases |s|
  {
    if s != [] {
      ReversedMultiset(s[..|s| - 1]);
      assert s == s[..|s| - 1] + [s[|s| - 1]];
    }
  }

  /** Presses compose: `a + b` presses are `a` presses followed by `b` presses. */
  lemma {:induction false} PressesAppend(r: seq<string>, st: TabState, a: nat, b: nat)
    requires |r| >= 2
    ensures var x := Presses(r, st, a); var y := Presses(r, x.1, b);
      Presses(r, st, a + b) == (x.0 + y.0, y.1)
    decreases a
  {
    var x := Presses(r, st, a);
    var y := Presses(r, x.1, b);
    if a == 0 {
      assert x.0 + y.0 == y.0;
    } else {
      var p := Tab(r, st);
      PressesAppend(r, p.1, a - 1, b);
      var x' := Presses(r, p.1, a - 1);
      assert x == ([p.0.value] + x'.0, x'.1);
      assert Presses(r, st, a + b) == ([p.0.value] + (x'.0 + y.0), y.1);
      assert [p.0.value] + (x'.0 + y.0) == ([p.0.value] + x'.0) + y.0;
    }
  }

  /** A non-empty stack is used up from its end, one press per element. */
  lemma {:induction false} PressesDrain(r: seq<string>, s: seq<string>)
    requires |r| >= 2
    ensures Presses(r, Cycling(s), |s|) == (Reversed(s), Cycling([]))
    decreases |s|
  {
    if s != [] {
      PressesDrain(r, s[..|s| - 1]);
    }
  }

  lemma PressOnce(r: seq<string>, st: TabState)
    requires |r| >= 2
    ensures Presses(r, st, 1) == ([Tab(r, st).0.value], Tab(r, st).1)
  {
    var p := Tab(r, st);
    assert Presses(r, p.1, 0) == ([], p.1);
    assert [p.0.value] + [] == [p.0.value];
  }

  /** From a drained stack one press returns to the last workspace. */
  lemma PressFromDrained(r: seq<string>)
    requires |r| >= 2
    ensures Presses(r, Cycling([]), 1) == ([r[|r| - 1]], Cycling(r[..|r| - 1]))
  {
    var home := r[..|r| - 1];
    assert Tab(r, Cycling([])) == (Some(r[|r| - 1]), Cycling(home));
    assert Presses(r, Cycling(home), 0) == ([], Cycling(home));
    assert [r[|r| - 1]] + [] == [r[|r| - 1]];
  }

  /** The stack left at the end of a cycle is used up, then the walk returns home. */
  lemma CycleFromHome(r: seq<string>)
    requires |r| >= 2
    ensures var n := |r|;
      Presses(r, Cycling(r[..n - 1]), n) == (Reversed(r[..n - 1]) + [r[n - 1]], Cycling(r[..n - 1]))
  {
    var n := |r|;
    var home := r[..n - 1];
    PressesDrain(r, home);
    var drain := Presses(r, Cycling(home), n - 1);
    assert drain == (Reversed(home), Cycling([]));
    PressFromDrained(r);
    var back := Presses(r, Cycling([]), 1);
    assert back == ([r[n - 1]], Cycling(home));
    PressesAppend(r, Cycling(home), n - 1, 1);
    assert Presses(r, Cycling(home), n) == (drain.0 + back.0, back.1);
  }

  /** The first press from idle lands on the second-to-last workspace. */
  lemma FirstPress(r: seq<string>)
    requires |r| >= 2
    ensures Presses(r, Idle, 1) == ([r[|r| - 2]], Cycling(r[..|r| - 2]))
  {
    assert r[..|r| - 1][..|r| - 2] == r[..|r| - 2];
    PressOnce(r, Idle);
  }

  /** After the first press: the rest of the stack, then home. */
  lemma RestThenHome(r: seq<string>)
    requires |r| >= 2
    ensures var n := |r|;
      Presses(r, Cycling(r[..n - 2]), n - 1) == (Reversed(r[..n - 2]) + [r[n - 1]], Cycling(r[..n - 1]))
  {
    var n := |r|;
    PressesDrain(r, r[..n - 2]);
    PressFromDrained(r);
    PressesAppend(r, Cycling(r[..n - 2]), n - 2, 1);
  }

  /** From idle: one press to `r[n-2]`, the rest of the stack, then home. */
  lemma CycleFromIdle(r: seq<string>)
    requires |r| >= 2
    ensures var n := |r|;
      Presses(r, Idle, n) == (Reversed(r[..n - 1]) + [r[n - 1]], Cycling(r[..n - 1]))
  {
    var n := |r|;
    var home, rest := r[..n - 1], r[..n - 2];
    FirstPress(r);
    RestThenHome(r);
    PressesAppend(r, Idle, 1, n - 1);
    assert Reversed(home) == [r[n - 2]] + Reversed(rest) by {
      assert home[..n - 2] == rest;
    }
    assert [r[n - 2]] + (Reversed(rest) + [r[n - 1]]) == Reversed(home) + [r[n - 1]];
  }

  lemma WalkVisitsAll(r: seq<string>)
    requires |r| >= 1
    ensures multiset(Reversed(r[..|r| - 1]) + [r[|r| - 1]]) == multiset(r)
  {
    ReversedMultiset(r[..|r| - 1]);
    assert r == r[..|r| - 1] + [r[|r| - 1]];
  }

  /**
   * The full cycle. Starting idle over registry `r` of `n >= 2` workspaces,
   * `n` presses visit `r[n-2], ..., r[0]` and then `r[n-1]`, the workspace the
   * cycle started from: every known workspace exactly once. The next `n`
   * presses repeat the same walk.
   */
  lemma FullCycle(r: seq<string>)
    requires |r| >= 2
    ensures var n := |r|; var walk := Reversed(r[..n - 1]) + [r[n - 1]];
      Presses(r, Idle, n) == (walk, Cycling(r[..n - 1])) &&
      Presses(r, Cycling(r[..n - 1]), n) == (walk, Cycling(r[..n - 1])) &&
      multiset(walk) == multiset(r)
  {
    var n := |r|;
    CycleFromIdle(r);
    CycleFromHome(r);
    WalkVisitsAll(r);
  }

  /**
   * Committing after a full cycle, back on the starting workspace, leaves the
   * registry as it was.
   */
  lemma CommitAfterFullCycle(r: seq<string>)
    requires NoDup(r) && |r| >= 2
    ensures Presses(r, Idle, |r|).1 == Cycling(r[..|r| - 1])
    ensures Commit(Config(r, Presses(r, Idle, |r|).1)) == Config(r, Idle)
  {
    CycleFromIdle(r);
    InsertLast(r, r[|r| - 1]);
  }

  /**
   * With registry `[a, b, c]`, c shown: the presses land on b, a, c, b, and
   * after the second press the stack is empty.
   */
  lemma ThreeWorkspaceWalk(a: string, b: string, c: string)
    ensures Presses([a, b, c], Idle, 2).1 == Cycling([])
    ensures Presses([a, b, c], Idle, 4).0 == [b, a, c, b]
  {
    var r := [a, b, c];
    assert r[..2] == [a, b] && r[..1] == [a] && r[..2][..1] == [a];
    CycleFromIdle(r);
    assert Reversed([a, b]) == [b, a] by {
      assert [a, b][..1] == [a];
      assert Reversed([a]) == [a];
    }
    PressesAppend(r, Idle, 3, 1);
    assert Tab(r, Cycling([a, b])) == (Some(b), Cycling([a]));
    PressOnce(r, Cycling([a, b]));
    PressesAppend(r, Idle, 1, 1);
    assert Tab(r, Idle) == (Some(b), Cycling([a]));
    PressOnce(r, Idle);
    assert Tab(r, Cycling([a])) == (Some(a), Cycling([]));
    PressOnce(r, Cycling([a]));
  }
}
