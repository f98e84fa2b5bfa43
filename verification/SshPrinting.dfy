/** Writing a directive in any of the ways the importer accepts, and reading it back. */
module SshPrinting {
  import opened Wrappers
  import opened Text
  import opened Seqs
  import opened SshTokens

  // ----- ways to write an argument

  /** A character, with or without a backslash before it. */
  datatype Written = Written(c: char, escaped: bool)

  /** A stretch of an argument: one character outside quotes, or text between two quotes of one kind. */
  datatype Piece = Bare(ch: Written) | Quoted(quote: char, text: seq<Written>)

  /** An argument may be put together from any stretches; at least one, or it would not be there. */
  type Word = seq<Piece>

  predicate IsQuote(c: char) {
    c == '"' || c == '\''
  }

  /** A backslash makes any character ordinary. Without one, its place decides which characters are. */
  predicate WellWritten(p: Piece) {
    match p
    case Bare(ch) => ch.escaped || (!IsAsciiWhitespace(ch.c) && !IsQuote(ch.c) && ch.c != '\\')
    case Quoted(quote, text) =>
      IsQuote(quote) && forall i :: 0 <= i < |text| ==> text[i].escaped || (text[i].c != quote && text[i].c != '\\')
  }

  predicate IsWord(w: Word) {
    w != [] && forall i :: 0 <= i < |w| ==> WellWritten(w[i])
  }

  /** Outside quotes an unescaped `#` would start a comment. */
  predicate HasNoHash(w: Word) {
    forall i :: 0 <= i < |w| && w[i].Bare? ==> w[i].ch.escaped || w[i].ch.c != '#'
  }

  function ShowChar(ch: Written): string {
    if ch.escaped then ['\\', ch.c] else [ch.c]
  }

  function ShowText(text: seq<Written>): string {
    if text == [] then "" else ShowText(text[..|text| - 1]) + ShowChar(text[|text| - 1])
  }

  function ShowPiece(p: Piece): string {
    match p
    case Bare(ch) => ShowChar(ch)
    case Quoted(quote, text) => [quote] + ShowText(text) + [quote]
  }

  function ShowWord(w: Word): string {
    if w == [] then "" else ShowWord(w[..|w| - 1]) + ShowPiece(w[|w| - 1])
  }

  // ----- what is meant by it

  function Letters(text: seq<Written>): string {
    if text == [] then "" else Letters(text[..|text| - 1]) + [text[|text| - 1].c]
  }

  function Meant(p: Piece): string {
    match p
    case Bare(ch) => [ch.c]
    case Quoted(_, text) => Letters(text)
  }

  function Argument(w: Word): string {
    if w == [] then "" else Argument(w[..|w| - 1]) + Meant(w[|w| - 1])
  }

  // ----- reading one argument

  lemma RunOne(t: Tokens, c: char)
    ensures TokenRun(t, [c]) == TokenStep(t, c)
  {
    assert [c][..0] == [];
  }

  lemma RunTwo(t: Tokens, a: char, b: char)
    ensures TokenRun(t, [a, b]) == TokenStep(TokenStep(t, a), b)
  {
    RunOne(t, a);
    assert [a, b][..1] == [a];
  }

  lemma RunThrough(t: Tokens, a: string, b: string, between: Tokens, after: Tokens)
    requires TokenRun(t, a) == between && TokenRun(between, b) == after
    ensures TokenRun(t, a + b) == after
  {
    TokenRunAppend(t, a, b);
  }

  /** More text for the argument being read. */
  function Reading(t: Tokens, more: string): Tokens {
    t.(current := t.current + more, inToken := true)
  }

  lemma ReadingOn(t: Tokens, a: string, b: string)
    ensures Reading(Reading(t, a), b) == Reading(t, a + b)
  {
    assert t.current + a + b == t.current + (a + b);
  }

  lemma QuotedCharReads(t: Tokens, quote: char, ch: Written)
    requires t.quoting == Quoting(Some(quote), false) && t.inToken
    requires ch.escaped || (ch.c != quote && ch.c != '\\')
    ensures TokenRun(t, ShowChar(ch)) == Reading(t, [ch.c])
  {
    if ch.escaped {
      RunTwo(t, '\\', ch.c);
    } else {
      RunOne(t, ch.c);
    }
  }

  lemma {:induction false} QuotedTextReads(t: Tokens, quote: char, text: seq<Written>)
    requires t.quoting == Quoting(Some(quote), false) && t.inToken && WellWritten(Quoted(quote, text))
    ensures TokenRun(t, ShowText(text)) == Reading(t, Letters(text))
  {
    if text == [] {
      assert t.current + "" == t.current;
    } else {
      var front, last := text[..|text| - 1], text[|text| - 1];
      QuotedTextReads(t, quote, front);
      var between := Reading(t, Letters(front));
      QuotedCharReads(between, quote, last);
      RunThrough(t, ShowText(front), ShowChar(last), between, Reading(between, [last.c]));
      ReadingOn(t, Letters(front), [last.c]);
    }
  }

  lemma QuotedPieceReads(t: Tokens, quote: char, text: seq<Written>)
    requires t.quoting == PLAIN && WellWritten(Quoted(quote, text))
    ensures TokenRun(t, ShowPiece(Quoted(quote, text))) == Reading(t, Letters(text))
  {
    var inside := t.(inToken := true, quoting := Quoting(Some(quote), false));
    RunOne(t, quote);
    QuotedTextReads(inside, quote, text);
    var full := Reading(inside, Letters(text));
    RunThrough(t, [quote], ShowText(text), inside, full);
    RunOne(full, quote);
    RunThrough(t, [quote] + ShowText(text), [quote], full, Reading(t, Letters(text)));
  }

  /** Outside quotes every stretch is added to the argument as it is meant, and leaves no quote open. */
  lemma PieceReads(t: Tokens, p: Piece)
    requires t.quoting == PLAIN && WellWritten(p)
    ensures TokenRun(t, ShowPiece(p)) == Reading(t, Meant(p))
  {
    match p
    case Bare(ch) =>
      if ch.escaped {
        RunTwo(t, '\\', ch.c);
      } else {
        RunOne(t, ch.c);
      }
    case Quoted(quote, text) => QuotedPieceReads(t, quote, text);
  }

  lemma {:induction false} WordReads(t: Tokens, w: Word)
    requires t.quoting == PLAIN && IsWord(w)
    ensures TokenRun(t, ShowWord(w)) == Reading(t, Argument(w))
  {
    var front, last := w[..|w| - 1], w[|w| - 1];
    if front == [] {
      PieceReads(t, last);
      assert "" + ShowPiece(last) == ShowPiece(last) && "" + Meant(last) == Meant(last);
    } else {
      WordReads(t, front);
      var between := Reading(t, Argument(front));
      PieceReads(between, last);
      RunThrough(t, ShowWord(front), ShowPiece(last), between, Reading(between, Meant(last)));
      ReadingOn(t, Argument(front), Meant(last));
    }
  }

  // ----- several arguments

  predicate IsBlank(s: string) {
    forall i :: 0 <= i < |s| ==> IsAsciiWhitespace(s[i])
  }

  /** An argument and the white space before it. */
  datatype Item = Item(gap: string, word: Word)

  predicate AreItems(items: seq<Item>) {
    forall i :: 0 <= i < |items| ==> IsItem(items[i])
  }

  predicate IsItem(item: Item) {
    item.gap != "" && IsBlank(item.gap) && IsWord(item.word)
  }

  function ShowItems(items: seq<Item>): string {
    if items == [] then "" else ShowItems(items[..|items| - 1]) + ShowItem(items[|items| - 1])
  }

  function ShowItem(item: Item): string {
    item.gap + ShowWord(item.word)
  }

  function ArgumentsOf(items: seq<Item>): (r: seq<string>)
    ensures |r| == |items|
  {
    if items == [] then []
    else ArgumentsOf(items[..|items| - 1]) + [Argument(items[|items| - 1].word)]
  }

  /** White space ends the argument being read, if there is one. */
  lemma {:induction false} BlankReads(t: Tokens, gap: string)
    requires t.quoting == PLAIN && IsBlank(gap)
    ensures TokenRun(t, gap) ==
      if t.inToken && gap != "" then t.(args := t.args + [t.current], current := "", inToken := false) else t
  {
    if gap != "" {
      BlankReads(t, gap[..|gap| - 1]);
    }
  }

  /** Outside quotes, with these arguments read so far; the last may still go on. */
  predicate HasRead(t: Tokens, args: seq<string>) {
    t.quoting == PLAIN && t.inToken && t.args + [t.current] == args
  }

  lemma ItemReads(t: Tokens, args: seq<string>, item: Item)
    requires HasRead(t, args) && IsItem(item)
    ensures HasRead(TokenRun(t, ShowItem(item)), args + [Argument(item.word)])
  {
    var ended := t.(args := t.args + [t.current], current := "", inToken := false);
    BlankReads(t, item.gap);
    WordReads(ended, item.word);
    assert "" + Argument(item.word) == Argument(item.word);
    RunThrough(t, item.gap, ShowWord(item.word), ended, Reading(ended, Argument(item.word)));
  }

  lemma {:induction false} ItemsRead(t: Tokens, args: seq<string>, items: seq<Item>)
    requires HasRead(t, args) && AreItems(items)
    ensures HasRead(TokenRun(t, ShowItems(items)), args + ArgumentsOf(items))
  {
    if items == [] {
      assert args + [] == args;
    } else {
      var front, last := items[..|items| - 1], items[|items| - 1];
      ItemsRead(t, args, front);
      var before := TokenRun(t, ShowItems(front));
      ItemReads(before, args + ArgumentsOf(front), last);
      TokenRunAppend(t, ShowItems(front), ShowItem(last));
      AppendAssociates(args, ArgumentsOf(front), [Argument(last.word)]);
    }
  }

  /** The first argument, the others, and white space behind them. */
  function ShowArguments(first: Word, items: seq<Item>, tail: string): string {
    ShowWord(first) + ShowItems(items) + tail
  }

  lemma TailReads(t: Tokens, args: seq<string>, tail: string)
    requires HasRead(t, args) && IsBlank(tail)
    ensures Finish(TokenRun(t, tail)) == args && TokenRun(t, tail).quoting == PLAIN
  {
    BlankReads(t, tail);
  }

  lemma FirstReads(first: Word)
    requires IsWord(first)
    ensures HasRead(TokenRun(NO_TOKENS, ShowWord(first)), [Argument(first)])
  {
    WordReads(NO_TOKENS, first);
    assert "" + Argument(first) == Argument(first);
  }

  lemma ArgumentsRun(first: Word, items: seq<Item>, tail: string)
    requires IsWord(first) && AreItems(items) && IsBlank(tail)
    ensures var r := TokenRun(NO_TOKENS, ShowArguments(first, items, tail));
      Finish(r) == [Argument(first)] + ArgumentsOf(items) && r.quoting == PLAIN
  {
    var one := TokenRun(NO_TOKENS, ShowWord(first));
    FirstReads(first);
    ItemsRead(one, [Argument(first)], items);
    var all := TokenRun(one, ShowItems(items));
    RunThrough(NO_TOKENS, ShowWord(first), ShowItems(items), one, all);
    TailReads(all, [Argument(first)] + ArgumentsOf(items), tail);
    TokenRunAppend(NO_TOKENS, ShowWord(first) + ShowItems(items), tail);
  }

  /** However arguments are written and spaced, the tokeniser reads them as they are meant. */
  lemma ArgumentsReadBack(first: Word, items: seq<Item>, tail: string)
    requires IsWord(first) && AreItems(items) && IsBlank(tail)
    ensures Arguments(ShowArguments(first, items, tail)) == [Argument(first)] + ArgumentsOf(items)
  {
    ArgumentsRun(first, items, tail);
  }

  // ----- text that ends too early

  function WithLast(args: seq<string>, more: string): seq<string>
    requires args != []
  {
    args[..|args| - 1] + [args[|args| - 1] + more]
  }

  lemma ArgumentsSoFar(first: Word, items: seq<Item>) returns (t: Tokens)
    requires IsWord(first) && AreItems(items)
    ensures t == TokenRun(NO_TOKENS, ShowArguments(first, items, ""))
    ensures HasRead(t, [Argument(first)] + ArgumentsOf(items))
  {
    var one := TokenRun(NO_TOKENS, ShowWord(first));
    FirstReads(first);
    ItemsRead(one, [Argument(first)], items);
    t := TokenRun(one, ShowItems(items));
    RunThrough(NO_TOKENS, ShowWord(first), ShowItems(items), one, t);
    assert ShowArguments(first, items, "") == ShowWord(first) + ShowItems(items);
  }

  /** A backslash at the very end stands for itself. */
  lemma TrailingBackslash(first: Word, items: seq<Item>)
    requires IsWord(first) && AreItems(items)
    ensures Arguments(ShowArguments(first, items, "") + "\\")
         == WithLast([Argument(first)] + ArgumentsOf(items), "\\")
  {
    var t := ArgumentsSoFar(first, items);
    TokenRunAppend(NO_TOKENS, ShowArguments(first, items, ""), "\\");
    RunOne(t, '\\');
  }

  /** A quote that is never closed reaches to the end. */
  lemma UnclosedQuote(first: Word, items: seq<Item>, quote: char, text: seq<Written>)
    requires IsWord(first) && AreItems(items) && WellWritten(Quoted(quote, text))
    ensures Arguments(ShowArguments(first, items, "") + ([quote] + ShowText(text)))
         == WithLast([Argument(first)] + ArgumentsOf(items), Letters(text))
  {
    var t := ArgumentsSoFar(first, items);
    var inside := t.(quoting := Quoting(Some(quote), false));
    TokenRunAppend(NO_TOKENS, ShowArguments(first, items, ""), [quote] + ShowText(text));
    RunOne(t, quote);
    QuotedTextReads(inside, quote, text);
    RunThrough(t, [quote], ShowText(text), inside, Reading(inside, Letters(text)));
  }

  // ----- no comment in it

  lemma CharHasNoComment(q: Quoting, ch: Written)
    requires !q.escaped && (q.quote.Some? || ch.escaped || ch.c != '#')
    ensures CommentFree(q, ShowChar(ch))
  {
    if ch.escaped {
      QuoteRunOne(q, '\\');
      assert ['\\', ch.c][..0] == [] && ['\\', ch.c][..1] == ['\\'];
    } else {
      assert [ch.c][..0] == [];
    }
  }

  lemma {:induction false} TextHasNoComment(quote: char, text: seq<Written>)
    requires WellWritten(Quoted(quote, text))
    ensures CommentFree(Quoting(Some(quote), false), ShowText(text))
    ensures QuoteRun(Quoting(Some(quote), false), ShowText(text)) == Quoting(Some(quote), false)
  {
    var q := Quoting(Some(quote), false);
    var t := Tokens([], "", true, q);
    QuotedTextReads(t, quote, text);
    Lockstep(t, ShowText(text));
    if text != [] {
      var front, last := text[..|text| - 1], text[|text| - 1];
      TextHasNoComment(quote, front);
      CharHasNoComment(q, last);
      CommentFreeAppend(q, ShowText(front), ShowChar(last));
    }
  }

  lemma OneHasNoComment(q: Quoting, c: char)
    requires c != '#'
    ensures CommentFree(q, [c])
  {
  }

  lemma QuotedHasNoComment(quote: char, text: seq<Written>)
    requires WellWritten(Quoted(quote, text))
    ensures CommentFree(PLAIN, [quote] + ShowText(text) + [quote])
  {
    var front := [quote] + ShowText(text);
    TextHasNoComment(quote, text);
    QuoteRunOne(PLAIN, quote);
    OneHasNoComment(PLAIN, quote);
    CommentFreeAppend(PLAIN, [quote], ShowText(text));
    OneHasNoComment(QuoteRun(PLAIN, front), quote);
    CommentFreeAppend(PLAIN, front, [quote]);
  }

  lemma PieceHasNoComment(p: Piece)
    requires WellWritten(p) && (p.Bare? ==> p.ch.escaped || p.ch.c != '#')
    ensures CommentFree(PLAIN, ShowPiece(p)) && QuoteRun(PLAIN, ShowPiece(p)) == PLAIN
  {
    PieceReads(NO_TOKENS, p);
    Lockstep(NO_TOKENS, ShowPiece(p));
    match p
    case Bare(ch) => CharHasNoComment(PLAIN, ch);
    case Quoted(quote, text) => QuotedHasNoComment(quote, text);
  }

  lemma {:induction false} WordHasNoComment(w: Word)
    requires HasNoHash(w) && forall i :: 0 <= i < |w| ==> WellWritten(w[i])
    ensures CommentFree(PLAIN, ShowWord(w)) && QuoteRun(PLAIN, ShowWord(w)) == PLAIN
  {
    if w != [] {
      var front, last := w[..|w| - 1], w[|w| - 1];
      WordHasNoComment(front);
      PieceHasNoComment(last);
      CommentFreeAppend(PLAIN, ShowWord(front), ShowPiece(last));
      QuoteRunAppend(PLAIN, ShowWord(front), ShowPiece(last));
    }
  }

  /** Text without quotes, backslashes and `#`, such as white space or a keyword. */
  predicate IsOrdinary(s: string) {
    forall i :: 0 <= i < |s| ==> s[i] !in {'"', '\'', '\\', '#'}
  }

  lemma {:induction false} OrdinaryHasNoComment(s: string)
    requires IsOrdinary(s)
    ensures CommentFree(PLAIN, s) && QuoteRun(PLAIN, s) == PLAIN
  {
    if s != [] {
      OrdinaryHasNoComment(s[..|s| - 1]);
    }
  }

  lemma BlankIsOrdinary(s: string)
    requires IsBlank(s)
    ensures IsOrdinary(s)
  {
  }

  /** No comment starts in the text, and no quote is left open behind it. */
  predicate IsClosed(s: string) {
    CommentFree(PLAIN, s) && QuoteRun(PLAIN, s) == PLAIN
  }

  lemma ClosedAppend(a: string, b: string)
    requires IsClosed(a) && IsClosed(b)
    ensures IsClosed(a + b)
  {
    CommentFreeAppend(PLAIN, a, b);
    QuoteRunAppend(PLAIN, a, b);
  }

  predicate NoneHasHash(items: seq<Item>) {
    forall i :: 0 <= i < |items| ==> HasNoHash(items[i].word)
  }

  lemma {:induction false} ItemsAreClosed(items: seq<Item>)
    requires AreItems(items) && NoneHasHash(items)
    ensures IsClosed(ShowItems(items))
  {
    if items != [] {
      var last := items[|items| - 1];
      ItemsAreClosed(items[..|items| - 1]);
      BlankIsOrdinary(last.gap);
      OrdinaryHasNoComment(last.gap);
      WordHasNoComment(last.word);
      ClosedAppend(last.gap, ShowWord(last.word));
      ClosedAppend(ShowItems(items[..|items| - 1]), ShowItem(last));
    }
  }
}
