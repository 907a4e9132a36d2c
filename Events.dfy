/**
 * Whole binding events, from the raw command string to the new state and the
 * outbound command (src/main.rs:54-98 with src/main.rs:101-136).
 */
module Events {
  import opened Wrappers
  import opened Registry
  import opened Tokenizer
  import opened Controller

  const TabCommand: string := "exec enhanced workspace tab"
  const CommitCommand: string := "exec enhanced super"

  lemma JoinSnoc(ws: seq<string>, w: string)
    requires |ws| > 0
    ensures Join(ws + [w]) == Join(ws) + [Space] + w
  {
    assert (ws + [w])[..|ws|] == ws;
  }

  lemma TokenizeTabCommand()
    ensures Tokenize(TabCommand) == TabWords
  {
    JoinSnoc(["exec"], "enhanced");
    JoinSnoc(["exec", "enhanced"], "workspace");
    JoinSnoc(["exec", "enhanced", "workspace"], "tab");
    assert ["exec", "enhanced", "workspace"] + ["tab"] == TabWords;
    assert Join(TabWords) == TabCommand;
    assert AllPlain(TabWords) by {
      forall i | 0 <= i < |TabWords| ensures Plain(TabWords[i]) {
      }
    }
    TokenizeJoin(TabWords);
  }

  lemma TokenizeCommitCommand()
    ensures Tokenize(CommitCommand) == ["exec", "enhanced", "super"]
  {
    var ws := ["exec", "enhanced", "super"];
    assert ws[..1] == ["exec"] && ws[..2] == ["exec", "enhanced"] && ws[..2][..1] == ws[..1];
    assert Join(ws) == CommitCommand;
    assert AllPlain(ws) by {
      forall i | 0 <= i < |ws| ensures Plain(ws[i]) {
      }
    }
    TokenizeJoin(ws);
  }

  /**
   * The outbound command tokenizes back to `workspace number <name>` for every
   * name without a quote, the empty name included.
   */
  lemma SwitchCommandTokens(n: string)
    requires Quote !in n
    ensures Tokenize(SwitchCommand(n)) == ["workspace", "number", n]
  {
    var ws := LearnWords;
    assert ws[..1] == ["workspace"];
    assert Join(ws) == "workspace number";
    assert AllPlain(ws) by {
      forall i | 0 <= i < |ws| ensures Plain(ws[i]) {
      }
    }
    TokenizeQuotedLast(ws, n);
    assert SwitchCommand(n) == Join(ws) + [Space, Quote] + n + [Quote];
  }

  /** Feeding the outbound command back as a binding event learns exactly that name. */
  lemma SwitchCommandLearned(c: Config, n: string)
    requires Valid(c) && Quote !in n
    ensures HandleEvent(SwitchCommand(n), c) == (Handled(None), Learn(c, n))
  {
    SwitchCommandTokens(n);
  }

  /** A tab press with fewer than two known workspaces changes nothing and sends nothing. */
  lemma TabEventGuard(c: Config)
    requires Valid(c) && |c.registry| <= 1
    ensures HandleEvent(TabCommand, c) == (Handled(None), c)
  {
    TokenizeTabCommand();
  }

  /**
   * With two or more workspaces a tab press sends a switch to a known
   * workspace and leaves the registry alone; when names hold no quote, that
   * command, read back, names the same workspace.
   */
  lemma TabEventSwitches(c: Config)
    requires Valid(c) && |c.registry| >= 2
    ensures var out := HandleEvent(TabCommand, c);
      out.0.Handled? && out.0.command.Some? && out.1.registry == c.registry &&
      out.1.tab == Tab(c.registry, c.tab).1 &&
      var t := Tab(c.registry, c.tab).0.value;
      t in c.registry && out.0.command.value == SwitchCommand(t) &&
      (Quote !in t ==> Tokenize(out.0.command.value) == ["workspace", "number", t])
  {
    TokenizeTabCommand();
    var t := Tab(c.registry, c.tab).0.value;
    if Quote !in t {
      SwitchCommandTokens(t);
    }
  }

  /** The commit event ends the cycle. */
  lemma CommitEvent(c: Config)
    requires Valid(c)
    ensures HandleEvent(CommitCommand, c) == (Handled(None), Commit(c))
  {
    TokenizeCommitCommand();
  }

  /**
   * Starting with no known workspace, "workspace number 1" registers `1`;
   * a tab press then finds a single workspace and does nothing.
   */
  lemma LearnThenLoneTab()
    ensures HandleEvent("workspace number 1", Config([], Idle)) == (Handled(None), Config(["1"], Idle))
    ensures HandleEvent(TabCommand, Config(["1"], Idle)) == (Handled(None), Config(["1"], Idle))
  {
    var ws := ["workspace", "number", "1"];
    assert ws[..1] == ["workspace"] && ws[..2] == ["workspace", "number"] && ws[..2][..1] == ws[..1];
    assert Join(ws) == "workspace number 1";
    assert AllPlain(ws) by {
      forall i | 0 <= i < |ws| ensures Plain(ws[i]) {
      }
    }
    TokenizeJoin(ws);
    assert Tokenize("workspace number 1") == ws;
    InsertAbsent([], "1");
    assert Learn(Config([], Idle), "1") == Config(["1"], Idle);
    TabEventGuard(Config(["1"], Idle));
  }
}
