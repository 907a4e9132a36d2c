/**
 * The command tokenizer `parse_command_words` (src/main.rs:101-136): a
 * character-level state machine that splits a binding command into words.
 *
 *  - a double quote toggles quote mode and is never part of a word;
 *  - a space outside quotes ends the current word, even when it is empty;
 *  - a closing quote ends the current word, even when it is empty;
 *  - a quote in the middle of a word only switches mode (`ab"c d"` is `abc d`);
 *  - the word left over at the end of input is kept only when non-empty.
 *
 * `Run` is the functional specification of the loop, `ParseCommandWords` the
 * loop itself. `Kept`, `Breaks` and `Trailing` describe the input
 * character by character, without words, and the lemmas relate them to the
 * tokens.
 */
module Tokenizer {

  const Quote: char := '"'
  const Space: char := ' '

  /** The loop variables of `parse_command_words`: `words`, `cur_word`, `in_quotes`. */
  datatype Scan = Scan(words: seq<string>, cur: string, inQuotes: bool)

  const Start: Scan := Scan([], "", false)

  /** One iteration of the loop body (src/main.rs:112-129). */
  function Step(st: Scan, c: char): Scan {
    if st.inQuotes then
      if c == Quote then Scan(st.words + [st.cur], "", false)
      else Scan(st.words, st.cur + [c], true)
    else if c == Quote then Scan(st.words, st.cur, true)
    else if c == Space then Scan(st.words + [st.cur], "", false)
    else Scan(st.words, st.cur + [c], false)
  }

  /** The loop run over `s` from state `st`, one character after another. */
  function Run(st: Scan, s: string): Scan
    decreases |s|
  {
    if s == [] then st else Step(Run(st, s[..|s| - 1]), s[|s| - 1])
  }

  /** The final flush: the unfinished word is kept only when non-empty (src/main.rs:131-133). */
  function Finish(st: Scan): seq<string> {
    if |st.cur| > 0 then st.words + [st.cur] else st.words
  }

  /** What `parse_command_words(s)` returns. */
  function Tokenize(s: string): seq<string> {
    Finish(Run(Start, s))
  }

  /** `parse_command_words`, with the same loop. */
  method ParseCommandWords(s: string) returns (words: seq<string>)
    ensures words == Tokenize(s)
  {
    words := [];
    var curWord: string := "";
    var inQuotes := false;
    for i := 0 to |s|
      invariant Run(Start, s[..i]) == Scan(words, curWord, inQuotes)
    {
      assert s[..i + 1][..i] == s[..i];
      var c := s[i];
      if inQuotes {
        if c == Quote {
          inQuotes := false;
          words := words + [curWord];
          curWord := "";
        } else {
          curWord := curWord + [c];
        }
      } else {
        if c == Quote {
          inQuotes := true;
        } else if c == Space {
          words := words + [curWord];
          curWord := "";
        } else {
          curWord := curWord + [c];
        }
      }
    }
    assert s[..|s|] == s;
    if |curWord| > 0 {
      words := words + [curWord];
    }
  }

  // ----- A character-level description of the input -----

  /** True when `s` holds an odd number of quotes: quote mode is on after reading `s`. */
  function OddQuotes(s: string): bool
    decreases |s|
  {
    if s == [] then false
    else if s[|s| - 1] == Quote then !OddQuotes(s[..|s| - 1])
    else OddQuotes(s[..|s| - 1])
  }

  /** The character `c`, read after `p`, ends a word: a closing quote or an unquoted space. */
  predicate IsBreak(p: string, c: char) {
    (c == Quote && OddQuotes(p)) || (c == Space && !OddQuotes(p))
  }

  /** The characters of `s` that end up inside words: no quotes and no unquoted spaces. */
  function Kept(s: string): string
    decreases |s|
  {
    if s == [] then []
    else
      var p, c := s[..|s| - 1], s[|s| - 1];
      if c == Quote || IsBreak(p, c) then Kept(p) else Kept(p) + [c]
  }

  /** The number of closing quotes and unquoted spaces in `s`. */
  function Breaks(s: string): nat
    decreases |s|
  {
    if s == [] then 0
    else
      var p, c := s[..|s| - 1], s[|s| - 1];
      if IsBreak(p, c) then Breaks(p) + 1 else Breaks(p)
  }

  /** The kept characters after the last break of `s`. */
  function Trailing(s: string): string
    decreases |s|
  {
    if s == [] then []
    else
      var p, c := s[..|s| - 1], s[|s| - 1];
      if IsBreak(p, c) then []
      else if c == Quote then Trailing(p)
      else Trailing(p) + [c]
  }

  /** All words concatenated. */
  function Concat(ws: seq<string>): string
    decreases |ws|
  {
    if ws == [] then [] else Concat(ws[..|ws| - 1]) + ws[|ws| - 1]
  }

  predicate QuoteFree(ws: seq<string>) {
    forall i :: 0 <= i < |ws| ==> Quote !in ws[i]
  }

  /** The loop state after reading `s`, described by the character-level functions. */
  lemma {:induction false} RunShape(s: string)
    ensures Run(Start, s).inQuotes == OddQuotes(s)
    ensures Concat(Run(Start, s).words) + Run(Start, s).cur == Kept(s)
    ensures |Run(Start, s).words| == Breaks(s)
    ensures Run(Start, s).cur == Trailing(s)
    ensures QuoteFree(Run(Start, s).words) && Quote !in Run(Start, s).cur
  {
    if s != [] {
      var p, c := s[..|s| - 1], s[|s| - 1];
      RunShape(p);
      var st := Run(Start, p);
      if IsBreak(p, c) {
        assert (st.words + [st.cur])[..|st.words|] == st.words;
        assert Concat(st.words + [st.cur]) == Concat(st.words) + st.cur;
      } else if c != Quote {
        assert Concat(st.words) + (st.cur + [c]) == Concat(st.words) + st.cur + [c];
      }
    }
  }

  /** No word contains a quote. */
  lemma TokensQuoteFree(s: string)
    ensures QuoteFree(Tokenize(s))
  {
    RunShape(s);
  }

  /** The words, concatenated, are the input without its quotes and its unquoted spaces. */
  lemma TokensConcat(s: string)
    ensures Concat(Tokenize(s)) == Kept(s)
  {
    RunShape(s);
    var st := Run(Start, s);
    if |st.cur| > 0 {
      assert (st.words + [st.cur])[..|st.words|] == st.words;
    }
  }

  /**
   * One word per closing quote and per unquoted space, possibly empty, plus
   * the trailing word when it is not empty.
   */
  lemma TokensCount(s: string)
    ensures |Tokenize(s)| == Breaks(s) + (if Trailing(s) != [] then 1 else 0)
  {
    RunShape(s);
  }

  /** A word without spaces or quotes. */
  predicate Plain(w: string) {
    Space !in w && Quote !in w
  }

  /** Splitting a run into two consecutive runs. */
  lemma {:induction false} RunAppend(st: Scan, a: string, b: string)
    ensures Run(st, a + b) == Run(Run(st, a), b)
    decreases |b|
  {
    if b == [] {
      assert a + b == a;
    } else {
      assert (a + b)[..|a + b| - 1] == a + b[..|b| - 1];
      RunAppend(st, a, b[..|b| - 1]);
    }
  }

  /** Characters that break nothing extend the current word. */
  lemma {:induction false} RunWithin(st: Scan, w: string)
    requires Quote !in w
    requires st.inQuotes || Space !in w
    ensures Run(st, w) == Scan(st.words, st.cur + w, st.inQuotes)
    decreases |w|
  {
    if w == [] {
      assert st.cur + w == st.cur;
    } else {
      var p := w[..|w| - 1];
      assert w[|w| - 1] in w;
      assert forall ch :: ch in p ==> ch in w;
      RunWithin(st, p);
      assert st.cur + p + [w[|w| - 1]] == st.cur + w;
    }
  }

  lemma RunOne(st: Scan, c: char)
    ensures Run(st, [c]) == Step(st, c)
  {
    assert [c][..0] == [];
  }

  /** Reading one more character is one more step. */
  lemma RunSnoc(st: Scan, a: string, c: char)
    ensures Run(st, a + [c]) == Step(Run(st, a), c)
  {
    assert (a + [c])[..|a|] == a;
  }

  /** Words joined by single spaces. */
  function Join(ws: seq<string>): string
    requires |ws| > 0
    decreases |ws|
  {
    if |ws| == 1 then ws[0] else Join(ws[..|ws| - 1]) + [Space] + ws[|ws| - 1]
  }

  predicate AllPlain(ws: seq<string>) {
    forall i :: 0 <= i < |ws| ==> Plain(ws[i])
  }

  lemma {:induction false} RunJoin(ws: seq<string>)
    requires |ws| > 0 && AllPlain(ws)
    ensures Run(Start, Join(ws)) == Scan(ws[..|ws| - 1], ws[|ws| - 1], false)
    decreases |ws|
  {
    if |ws| == 1 {
      RunWithin(Start, ws[0]);
    } else {
      var init, w := ws[..|ws| - 1], ws[|ws| - 1];
      assert AllPlain(init) by {
        forall i | 0 <= i < |init| ensures Plain(init[i]) {
          assert init[i] == ws[i];
        }
      }
      RunJoin(init);
      assert Plain(ws[|ws| - 1]);
      RunAppend(Start, Join(init) + [Space], w);
      RunAppend(Start, Join(init), [Space]);
      RunOne(Run(Start, Join(init)), Space);
      assert init[..|init| - 1] + [init[|init| - 1]] == init;
      RunWithin(Scan(init, "", false), w);
    }
  }

  /**
   * Plain words joined by single spaces come back as those words; an empty
   * word between two spaces comes back as an empty word.
   */
  lemma TokenizeJoin(ws: seq<string>)
    requires |ws| > 0 && AllPlain(ws) && ws[|ws| - 1] != []
    ensures Tokenize(Join(ws)) == ws
  {
    RunJoin(ws);
    assert ws[..|ws| - 1] + [ws[|ws| - 1]] == ws;
  }

  /** A non-empty string without spaces or quotes is a single word. */
  lemma TokenizePlainWord(w: string)
    requires w != [] && Plain(w)
    ensures Tokenize(w) == [w]
  {
    TokenizeJoin([w]);
  }

  /** The empty command has no words. */
  lemma TokenizeEmpty()
    ensures Tokenize("") == []
  {
  }

  /** Plain words followed by a space: all of them are finished words. */
  lemma RunJoinSpace(ws: seq<string>)
    requires |ws| > 0 && AllPlain(ws)
    ensures Run(Start, Join(ws) + [Space]) == Scan(ws, "", false)
  {
    RunJoin(ws);
    RunSnoc(Start, Join(ws), Space);
    SplitLast(ws);
  }

  lemma SplitLast(ws: seq<string>)
    requires |ws| > 0
    ensures ws[..|ws| - 1] + [ws[|ws| - 1]] == ws
  {
  }

  /** Outside quotes, a quoted quote-free name is one finished word. */
  lemma RunQuoted(ws: seq<string>, n: string)
    requires Quote !in n
    ensures Run(Scan(ws, "", false), [Quote] + n + [Quote]) == Scan(ws + [n], "", false)
  {
    var st := Scan(ws, "", false);
    RunOne(st, Quote);
    RunAppend(st, [Quote], n);
    RunWithin(Scan(ws, "", true), n);
    assert "" + n == n;
    RunAppend(st, [Quote] + n, [Quote]);
    RunOne(Scan(ws, n, true), Quote);
  }

  /** Plain words, a space, then a quoted name: the name is the last word, even when empty. */
  lemma TokenizeQuotedLast(ws: seq<string>, n: string)
    requires |ws| > 0 && AllPlain(ws) && Quote !in n
    ensures Tokenize(Join(ws) + [Space, Quote] + n + [Quote]) == ws + [n]
  {
    Regroup(Join(ws), n);
    RunJoinSpace(ws);
    RunQuoted(ws, n);
    RunAppend(Start, Join(ws) + [Space], [Quote] + n + [Quote]);
  }

  lemma Regroup(a: string, n: string)
    ensures a + [Space, Quote] + n + [Quote] == (a + [Space]) + ([Quote] + n + [Quote])
  {
  }

  /** A quote in the middle of a word only switches mode. */
  lemma TokenizeMidWordQuote()
    ensures Tokenize("ab\"c d\"") == ["abc d"]
  {
    RunWithin(Start, "ab");
    assert Run(Start, "ab") == Scan([], "ab", false);
    RunAppend(Start, "ab", [Quote]);
    RunOne(Scan([], "ab", false), Quote);
    assert Run(Start, "ab" + [Quote]) == Scan([], "ab", true);
    RunAppend(Start, "ab" + [Quote], "c d");
    RunWithin(Scan([], "ab", true), "c d");
    assert "ab" + "c d" == "abc d";
    assert Run(Start, "ab" + [Quote] + "c d") == Scan([], "abc d", true);
    RunAppend(Start, "ab" + [Quote] + "c d", [Quote]);
    RunOne(Scan([], "abc d", true), Quote);
    assert "ab" + [Quote] + "c d" + [Quote] == "ab\"c d\"";
    assert Run(Start, "ab\"c d\"") == Scan(["abc d"], "", false);
  }

  /** Two consecutive spaces give an empty word between them. */
  lemma TokenizeDoubleSpace()
    ensures Tokenize("a  b") == ["a", "", "b"]
  {
    var ws := ["a", "", "b"];
    assert Join(ws[..1]) == "a";
    assert ws[..2][..1] == ws[..1];
    assert Join(ws[..2]) == "a ";
    assert Join(ws) == "a  b";
    assert AllPlain(ws) by {
      forall i | 0 <= i < 3 ensures Plain(ws[i]) {
      }
    }
    TokenizeJoin(ws);
  }
}
