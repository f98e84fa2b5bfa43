/**
 * One line of an SSH config: stripping its comment, splitting off the keyword, and cutting the rest into arguments.
 * The comment stripper and the tokeniser each run their own quoting automaton; the two are kept in lockstep.
 */
module SshTokens {
  import opened Wrappers
  import opened Text

  // ----- quoting, as both automata understand it

  datatype Quoting = Quoting(quote: Option<char>, escaped: bool)

  const PLAIN: Quoting := Quoting(None, false)

  function QuoteStep(q: Quoting, c: char): Quoting {
    if q.escaped then q.(escaped := false)
    else if c == '\\' then q.(escaped := true)
    else if q.quote.Some? then if c == q.quote.value then PLAIN else q
    else if c == '"' || c == '\'' then Quoting(Some(c), false)
    else q
  }

  function QuoteRun(q: Quoting, s: string): Quoting {
    if s == [] then q else QuoteStep(QuoteRun(q, s[..|s| - 1]), s[|s| - 1])
  }

  /** A comment starts at a `#` that is neither quoted nor escaped. */
  predicate StartsComment(q: Quoting, s: string, i: int) {
    0 <= i < |s| && s[i] == '#' && QuoteRun(q, s[..i]) == PLAIN
  }

  predicate CommentFree(q: Quoting, s: string) {
    forall i :: 0 <= i < |s| ==> !StartsComment(q, s, i)
  }

  function StripComment(line: string): string {
    StripFrom(PLAIN, line)
  }

  /** Everything before the first comment. */
  function StripFrom(q: Quoting, s: string): string
    decreases |s|
  {
    if s == [] || (s[0] == '#' && q == PLAIN) then [] else [s[0]] + StripFrom(QuoteStep(q, s[0]), s[1..])
  }

  /** Stripping the line is keeping its first `index` characters and stripping the rest. */
  ghost predicate StripsAt(line: string, index: nat)
    requires index <= |line|
  {
    StripComment(line) == line[..index] + StripFrom(QuoteRun(PLAIN, line[..index]), line[index..])
  }

  lemma StripAdvances(line: string, index: nat)
    requires index < |line| && StripsAt(line, index) && CommentFree(PLAIN, line[..index])
    requires line[index] != '#' || QuoteRun(PLAIN, line[..index]) != PLAIN
    ensures QuoteRun(PLAIN, line[..index + 1]) == QuoteStep(QuoteRun(PLAIN, line[..index]), line[index])
    ensures CommentFree(PLAIN, line[..index + 1]) && StripsAt(line, index + 1)
  {
    var ch := line[index];
    assert line[..index + 1] == line[..index] + [ch];
    assert line[..index + 1][..index] == line[..index];
    CommentFreeExtend(PLAIN, line[..index], ch);
    assert line[index..][0] == ch && line[index..][1..] == line[index + 1..];
  }

  method StripSshConfigComment(line: string) returns (stripped: string)
    ensures stripped <= line && CommentFree(PLAIN, stripped)
    ensures |stripped| == |line| || StartsComment(PLAIN, line, |stripped|)
    ensures stripped == StripComment(line)
  {
    var quote: Option<char> := None;
    var escaped := false;
    for index := 0 to |line|
      invariant Quoting(quote, escaped) == QuoteRun(PLAIN, line[..index])
      invariant CommentFree(PLAIN, line[..index])
      invariant StripsAt(line, index)
    {
      var ch := line[index];
      if ch != '#' || QuoteRun(PLAIN, line[..index]) != PLAIN {
        StripAdvances(line, index);
      }
      if escaped {
        escaped := false;
        continue;
      }
      if ch == '\\' {
        escaped := true;
        continue;
      }
      if quote.Some? {
        if ch == quote.value {
          quote := None;
        }
        continue;
      }
      if ch == '"' || ch == '\'' {
        quote := Some(ch);
        continue;
      }
      if ch == '#' {
        return line[..index];
      }
    }
    assert line[..|line|] == line;
    stripped := line;
  }

  // ----- keyword and arguments

  predicate IsEquals(c: char) {
    c == '='
  }

  function Find(p: char -> bool, s: string): (r: Option<nat>)
    ensures r.Some? ==> r.value < |s| && p(s[r.value]) && forall i :: 0 <= i < r.value ==> !p(s[i])
    ensures r.None? ==> forall i :: 0 <= i < |s| ==> !p(s[i])
  {
    if s == [] then None
    else if p(s[0]) then Some(0)
    else match Find(p, s[1..]) case None => None case Some(i) => Some(i + 1)
  }

  /** The keyword ends at the first `=` or ASCII white space; after white space one `=` is skipped. */
  function SplitDirective(text: string): Option<(string, string)> {
    var line := Trim(text);
    if line == [] then None
    else
      var ws, eq := Find(IsAsciiWhitespace, line), Find(IsEquals, line);
      var (keyword, arguments) :=
        if eq.Some? && (ws.None? || eq.value < ws.value) then (line[..eq.value], line[eq.value + 1..])
        else if ws.Some? then
          var rest := TrimStart(line[ws.value..]);
          (line[..ws.value], TrimStart(if StartsWith(rest, "=") then rest[1..] else rest))
        else (line, "");
      if Trim(keyword) == [] then None else Some((Trim(keyword), Trim(arguments)))
  }

  datatype Tokens = Tokens(args: seq<string>, current: string, inToken: bool, quoting: Quoting)

  const NO_TOKENS: Tokens := Tokens([], "", false, PLAIN)

  function TokenStep(t: Tokens, c: char): Tokens {
    var next := t.(quoting := QuoteStep(t.quoting, c));
    if t.quoting.escaped then next.(current := t.current + [c], inToken := true)
    else if c == '\\' then next.(inToken := true)
    else if t.quoting.quote.Some? then
      next.(current := if c == t.quoting.quote.value then t.current else t.current + [c], inToken := true)
    else if c == '"' || c == '\'' then next.(inToken := true)
    else if IsAsciiWhitespace(c) then
      if t.inToken then next.(args := t.args + [t.current], current := "", inToken := false) else next
    else next.(current := t.current + [c], inToken := true)
  }

  function TokenRun(t: Tokens, s: string): Tokens {
    if s == [] then t else TokenStep(TokenRun(t, s[..|s| - 1]), s[|s| - 1])
  }

  /** At the end of the input a pending escape stands for itself. */
  function Finish(t: Tokens): seq<string> {
    if t.inToken then t.args + [if t.quoting.escaped then t.current + ['\\'] else t.current] else t.args
  }

  function Arguments(input: string): seq<string> {
    Finish(TokenRun(NO_TOKENS, input))
  }

  method SshConfigArguments(input: string) returns (args: seq<string>)
    ensures args == Arguments(input)
  {
    args := [];
    var current := "";
    var quote: Option<char> := None;
    var escaped := false;
    var inToken := false;
    for i := 0 to |input|
      invariant Tokens(args, current, inToken, Quoting(quote, escaped)) == TokenRun(NO_TOKENS, input[..i])
      invariant escaped ==> inToken
    {
      var ch := input[i];
      assert input[..i + 1][..i] == input[..i];
      if escaped {
        current := current + [ch];
        inToken := true;
        escaped := false;
        continue;
      }
      if ch == '\\' {
        escaped := true;
        inToken := true;
        continue;
      }
      if quote.Some? {
        if ch == quote.value {
          quote := None;
        } else {
          current := current + [ch];
        }
        inToken := true;
        continue;
      }
      if ch == '"' || ch == '\'' {
        quote := Some(ch);
        inToken := true;
        continue;
      }
      if IsAsciiWhitespace(ch) {
        if inToken {
          args := args + [current];
          current := "";
          inToken := false;
        }
        continue;
      }
      current := current + [ch];
      inToken := true;
    }
    assert input[..|input|] == input;
    if escaped {
      current := current + ['\\'];
    }
    if inToken {
      args := args + [current];
    }
  }

  /** Keyword and arguments of a raw line; `None` for a line that says nothing. */
  function ParseLine(raw: string): Option<(string, seq<string>)> {
    var line := Trim(StripComment(raw));
    if line == [] then None
    else
      match SplitDirective(line)
      case None => None
      case Some(split) => Some((split.0, Arguments(split.1)))
  }

  // ----- lockstep

  lemma {:induction false} QuoteRunAppend(q: Quoting, a: string, b: string)
    ensures QuoteRun(q, a + b) == QuoteRun(QuoteRun(q, a), b)
  {
    if b == [] {
      assert a + b == a;
    } else {
      assert (a + b)[..|a + b| - 1] == a + b[..|b| - 1];
      QuoteRunAppend(q, a, b[..|b| - 1]);
    }
  }

  lemma {:induction false} TokenRunAppend(t: Tokens, a: string, b: string)
    ensures TokenRun(t, a + b) == TokenRun(TokenRun(t, a), b)
  {
    if b == [] {
      assert a + b == a;
    } else {
      assert (a + b)[..|a + b| - 1] == a + b[..|b| - 1];
      TokenRunAppend(t, a, b[..|b| - 1]);
    }
  }

  /** The tokeniser is always in the quoting state that the comment stripper would be in. */
  lemma {:induction false} Lockstep(t: Tokens, s: string)
    ensures TokenRun(t, s).quoting == QuoteRun(t.quoting, s)
  {
    if s != [] {
      Lockstep(t, s[..|s| - 1]);
    }
  }

  /** Where the stripper cuts, no argument is open: quoted and escaped text is never cut apart. */
  lemma CutsOnlyBetweenQuotes(line: string, k: nat)
    requires StartsComment(PLAIN, line, k)
    ensures TokenRun(NO_TOKENS, line[..k]).quoting == PLAIN
  {
    Lockstep(NO_TOKENS, line[..k]);
  }

  lemma {:induction false} CommentFreeAppend(q: Quoting, a: string, b: string)
    requires CommentFree(q, a) && CommentFree(QuoteRun(q, a), b)
    ensures CommentFree(q, a + b)
  {
    forall i | 0 <= i < |a + b| ensures !StartsComment(q, a + b, i) {
      if i < |a| {
        assert !StartsComment(q, a, i);
        assert (a + b)[..i] == a[..i];
      } else {
        assert !StartsComment(QuoteRun(q, a), b, i - |a|);
        assert (a + b)[..i] == a + b[..i - |a|];
        QuoteRunAppend(q, a, b[..i - |a|]);
      }
    }
  }

  lemma CommentFreeExtend(q: Quoting, s: string, c: char)
    requires CommentFree(q, s) && (c != '#' || QuoteRun(q, s) != PLAIN)
    ensures CommentFree(q, s + [c])
  {
    assert [c][..0] == [];
    CommentFreeAppend(q, s, [c]);
  }

  lemma QuoteRunOne(q: Quoting, c: char)
    ensures QuoteRun(q, [c]) == QuoteStep(q, c)
  {
    assert [c][..0] == [];
  }

  /** A comment-free text comes through whole, and a comment behind it is cut off. */
  lemma {:induction false} StripKeepsCommentFree(q: Quoting, s: string, comment: string)
    requires CommentFree(q, s)
    requires comment == [] || (comment[0] == '#' && QuoteRun(q, s) == PLAIN)
    ensures StripFrom(q, s + comment) == s
    decreases |s|
  {
    if s == [] {
      assert s + comment == comment;
    } else {
      var t := s[1..];
      assert s == [s[0]] + t;
      QuoteRunAppend(q, [s[0]], t);
      QuoteRunOne(q, s[0]);
      assert !StartsComment(q, s, 0);
      assert s[..0] == [];
      forall i | 0 <= i < |t| ensures !StartsComment(QuoteStep(q, s[0]), t, i) {
        assert !StartsComment(q, s, i + 1);
        assert s[..i + 1] == [s[0]] + t[..i];
        QuoteRunAppend(q, [s[0]], t[..i]);
      }
      StripKeepsCommentFree(QuoteStep(q, s[0]), t, comment);
      assert (s + comment)[1..] == t + comment;
    }
  }
}
