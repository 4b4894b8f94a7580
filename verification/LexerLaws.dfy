/** Printing tokens and reading them back. */
module LexerLaws {
  import opened Bytes
  import opened Lexer

  datatype Style = Bare | Block | Quoted

  datatype Printed = Printed(style: Style, text: Text)

  /** Every backslash is followed by the byte it escapes, and no unescaped byte ends a bare token. */
  predicate BareBody(s: Text) {
    if s == [] then true
    else if EndsBare(s[0]) then false
    else if s[0] == BACKSLASH then 1 < |s| && BareBody(s[2..])
    else BareBody(s[1..])
  }

  predicate QuotedBody(s: Text) {
    if s == [] then true
    else if s[0] == QUOTE then false
    else if s[0] == BACKSLASH then 1 < |s| && QuotedBody(s[2..])
    else QuotedBody(s[1..])
  }

  /** What can be written as a token of the given style. */
  predicate Printable(x: Printed) {
    match x.style
    case Bare => x.text != [] && x.text[0] != QUOTE && x.text[0] != LESS && BareBody(x.text)
    case Block => |x.text| >= 2 && x.text[0] == LESS && IndexFrom(x.text, 0, GREATER) == |x.text| - 1
    case Quoted => QuotedBody(x.text)
  }

  function Print(x: Printed): Text {
    if x.style.Quoted? then [QUOTE] + x.text + [QUOTE] else x.text
  }

  /** Tokens joined with single spaces and ended by a newline. */
  function PrintLine(xs: seq<Printed>): (s: Text)
    ensures s != []
  {
    if xs == [] then [NEWLINE]
    else if |xs| == 1 then Print(xs[0]) + [NEWLINE]
    else Print(xs[0]) + ([SPACE] + PrintLine(xs[1..]))
  }

  function Texts(xs: seq<Printed>): seq<Text> {
    if xs == [] then [] else [xs[0].text] + Texts(xs[1..])
  }

  predicate AllPrintable(xs: seq<Printed>) {
    xs == [] || (Printable(xs[0]) && AllPrintable(xs[1..]))
  }

  /** `t` has `s` at position `p`. */
  predicate At(t: Text, p: nat, s: Text) {
    p + |s| <= |t| && forall k :: 0 <= k < |s| ==> t[p + k] == s[k]
  }

  lemma AtTail(t: Text, p: nat, s: Text, k: nat)
    requires At(t, p, s) && k <= |s|
    ensures At(t, p + k, s[k..])
  {
    forall j | 0 <= j < |s[k..]| ensures t[p + k + j] == s[k..][j] {
      assert s[k..][j] == s[k + j];
    }
  }

  lemma AtConcat(t: Text, p: nat, a: Text, b: Text)
    requires At(t, p, a + b)
    ensures At(t, p, a) && At(t, p + |a|, b)
  {
    forall j | 0 <= j < |a| ensures t[p + j] == a[j] {
      assert (a + b)[j] == a[j];
    }
    forall j | 0 <= j < |b| ensures t[p + |a| + j] == b[j] {
      assert (a + b)[|a| + j] == b[j];
    }
  }

  lemma {:induction false} BareIsScanned(t: Text, p: nat, s: Text)
    requires At(t, p, s) && BareBody(s)
    requires p + |s| < |t| && EndsBare(t[p + |s|])
    ensures BareEnd(t, p) == p + |s|
    decreases |s|
  {
    if s == [] {
    } else {
      assert t[p] == s[0];
      var k := if s[0] == BACKSLASH then 2 else 1;
      AtTail(t, p, s, k);
      BareIsScanned(t, p + k, s[k..]);
    }
  }

  lemma {:induction false} QuotedIsScanned(t: Text, p: nat, s: Text)
    requires At(t, p, s) && QuotedBody(s)
    requires p + |s| < |t| && t[p + |s|] == QUOTE
    ensures ClosingQuote(t, p) == p + |s|
    decreases |s|
  {
    if s == [] {
    } else {
      assert t[p] == s[0];
      var k := if s[0] == BACKSLASH then 2 else 1;
      AtTail(t, p, s, k);
      QuotedIsScanned(t, p + k, s[k..]);
    }
  }

  lemma BlockIsScanned(t: Text, p: nat, s: Text)
    requires At(t, p, s) && |s| >= 2 && IndexFrom(s, 0, GREATER) == |s| - 1
    ensures IndexFrom(t, p, GREATER) == p + |s| - 1
  {
    forall k | p <= k < p + |s| - 1 ensures t[k] != GREATER {
      assert t[k] == s[k - p];
    }
    assert t[p + |s| - 1] == s[|s| - 1];
    IndexFromIs(t, p, GREATER, p + |s| - 1);
  }

  lemma QuotedAt(t: Text, p: nat, s: Text)
    requires At(t, p, [QUOTE] + s + [QUOTE])
    ensures t[p] == QUOTE && At(t, p + 1, s) && t[p + 1 + |s|] == QUOTE
  {
    assert [QUOTE] + s + [QUOTE] == [QUOTE] + (s + [QUOTE]);
    AtConcat(t, p, [QUOTE], s + [QUOTE]);
    AtConcat(t, p + 1, s, [QUOTE]);
    assert t[p] == [QUOTE][0] && t[p + 1 + |s|] == [QUOTE][0];
  }

  lemma QuotedRoundTrip(t: Text, p: nat, s: Text)
    requires QuotedBody(s) && At(t, p, [QUOTE] + s + [QUOTE])
    ensures t[p] == QUOTE
    ensures LexToken(t, p) == Token(s, p + |s| + 2)
  {
    hide QuotedBody, ClosingQuote, BareEnd, IndexFrom, NextLine;
    QuotedAt(t, p, s);
    QuotedIsScanned(t, p + 1, s);
    assert t[p + 1..p + 1 + |s|] == s;
  }

  lemma BlockRoundTrip(t: Text, p: nat, s: Text)
    requires At(t, p, s) && |s| >= 2 && s[0] == LESS && IndexFrom(s, 0, GREATER) == |s| - 1
    ensures t[p] == LESS
    ensures LexToken(t, p) == Token(s, p + |s|)
  {
    assert t[p] == s[0];
    BlockIsScanned(t, p, s);
    assert t[p..p + |s|] == s;
  }

  lemma BareRoundTrip(t: Text, p: nat, s: Text)
    requires At(t, p, s) && s != [] && s[0] != QUOTE && s[0] != LESS && BareBody(s)
    requires p + |s| < |t| && EndsBare(t[p + |s|])
    ensures !EndsBare(t[p])
    ensures LexToken(t, p) == Token(s, p + |s|)
  {
    assert t[p] == s[0];
    BareIsScanned(t, p, s);
    assert t[p..p + |s|] == s;
  }

  /** A printed token in front of a space or a line end is read back. */
  lemma TokenRoundTrip(t: Text, p: nat, x: Printed)
    requires Printable(x) && At(t, p, Print(x))
    requires p + |Print(x)| < |t| && (t[p + |Print(x)|] == SPACE || t[p + |Print(x)|] == NEWLINE)
    ensures !IsBlank(t[p]) && t[p] != HASH
    ensures LexToken(t, p) == Token(x.text, p + |Print(x)|)
  {
    hide LexToken, BareBody, QuotedBody, IndexFrom;
    match x.style
    case Bare => BareRoundTrip(t, p, x.text);
    case Block => BlockRoundTrip(t, p, x.text);
    case Quoted => QuotedRoundTrip(t, p, x.text);
  }

  lemma TokenThenSpace(t: Text, p: nat, x: Printed)
    requires Printable(x) && At(t, p, Print(x))
    requires p + |Print(x)| < |t| && t[p + |Print(x)|] == SPACE
    ensures LexTokens(t, p) == Prefixed([x.text], LexTokens(t, p + |Print(x)| + 1))
  {
    hide LexToken, Printable;
    TokenRoundTrip(t, p, x);
    var q := p + |Print(x)|;
    assert SkipBlanks(t, q) == SkipBlanks(t, q + 1);
    assert LexTokens(t, q) == TokensAt(t, SkipBlanks(t, q)) == LexTokens(t, q + 1);
  }

  lemma TokenThenEol(t: Text, p: nat, x: Printed)
    requires Printable(x) && At(t, p, Print(x))
    requires p + |Print(x)| < |t| && t[p + |Print(x)|] == NEWLINE
    ensures LexTokens(t, p) == LineTokens([x.text], p + |Print(x)|)
  {
    TokenRoundTrip(t, p, x);
    var q := p + |Print(x)|;
    assert LexTokens(t, q) == LineTokens([], q);
  }

  lemma SpaceAt(t: Text, p: nat, head: Text, b: Byte, tail: Text)
    requires At(t, p, head + ([b] + tail))
    ensures At(t, p, head) && t[p + |head|] == b && At(t, p + |head| + 1, tail)
  {
    AtConcat(t, p, head, [b] + tail);
    AtConcat(t, p + |head|, [b], tail);
    assert t[p + |head|] == [b][0];
  }

  lemma EmptyLineRead(t: Text, p: nat)
    requires p < |t| && t[p] == NEWLINE
    ensures LexTokens(t, p) == LineTokens([], p)
  {
  }

  lemma LastTokenRead(t: Text, p: nat, x: Printed)
    requires Printable(x) && At(t, p, Print(x) + [NEWLINE])
    ensures LexTokens(t, p) == LineTokens([x.text], p + |Print(x)|)
    ensures t[p + |Print(x)|] == NEWLINE
  {
    SpaceAt(t, p, Print(x), NEWLINE, []) by {
      assert [NEWLINE] + [] == [NEWLINE];
    }
    TokenThenEol(t, p, x);
  }

  lemma FirstTokenRead(t: Text, p: nat, x: Printed, rest: Text)
    requires Printable(x) && At(t, p, Print(x) + ([SPACE] + rest))
    ensures At(t, p + |Print(x)| + 1, rest)
    ensures LexTokens(t, p) == Prefixed([x.text], LexTokens(t, p + |Print(x)| + 1))
  {
    SpaceAt(t, p, Print(x), SPACE, rest);
    TokenThenSpace(t, p, x);
  }

  /** The tokens from `p` are `xs`, and the newline after them is at `stop`. */
  predicate ReadsAs(t: Text, p: nat, tokens: seq<Text>, stop: nat) {
    p <= |t| && stop < |t| && t[stop] == NEWLINE && LexTokens(t, p) == LineTokens(tokens, stop)
  }

  lemma ReadsFurther(t: Text, p: nat, text: Text, q: nat, tokens: seq<Text>, stop: nat)
    requires p <= |t| && q <= |t| && LexTokens(t, p) == Prefixed([text], LexTokens(t, q))
    requires ReadsAs(t, q, tokens, stop)
    ensures ReadsAs(t, p, [text] + tokens, stop)
  {
  }

  lemma LineEnds(t: Text, p: nat, tokens: seq<Text>, stop: nat)
    requires ReadsAs(t, p, tokens, stop)
    ensures LexLine(t, p) == Line(tokens, PastEols(t, stop + 1))
  {
    assert ToEol(t, stop) == stop;
    assert PastEols(t, stop) == PastEols(t, stop + 1);
  }

  lemma {:induction false} TokensRoundTrip(t: Text, p: nat, xs: seq<Printed>)
    requires AllPrintable(xs) && At(t, p, PrintLine(xs))
    ensures ReadsAs(t, p, Texts(xs), p + |PrintLine(xs)| - 1)
    decreases |xs|
  {
    if xs == [] {
      assert t[p] == [NEWLINE][0];
      EmptyLineRead(t, p);
    } else {
      var x := xs[0];
      if |xs| == 1 {
        LastTokenRead(t, p, x);
        assert Texts(xs) == [x.text];
      } else {
        var rest, q := xs[1..], p + |Print(x)| + 1;
        FirstTokenRead(t, p, x, PrintLine(rest));
        TokensRoundTrip(t, q, rest);
        ReadsFurther(t, p, x.text, q, Texts(rest), q + |PrintLine(rest)| - 1);
      }
    }
  }

  /**
   Lexer round trip: a printed line followed by anything is read back as exactly its
   tokens, and reading stops at the next byte that does not end a line.
   */
  lemma LineRoundTrip(t: Text, p: nat, xs: seq<Printed>)
    requires AllPrintable(xs) && At(t, p, PrintLine(xs))
    ensures LexLine(t, p) == Line(Texts(xs), PastEols(t, p + |PrintLine(xs)|))
  {
    TokensRoundTrip(t, p, xs);
    LineEnds(t, p, Texts(xs), p + |PrintLine(xs)| - 1);
  }

  // ----- whole files -----

  datatype FileLines = BrokenFile | FileLines(lines: seq<seq<Text>>)

  /** All non-empty lines from `p` on. */
  function LexFile(t: Text, p: nat): FileLines
    requires p <= |t|
    decreases |t| - p
  {
    if p == |t| then FileLines([])
    else
      match LexLine(t, p)
      case BrokenLine => BrokenFile
      case Line(tokens, next) => WithLine(tokens, LexFile(t, next))
  }

  function WithLine(tokens: seq<Text>, rest: FileLines): FileLines {
    match rest
    case BrokenFile => BrokenFile
    case FileLines(lines) => FileLines(if tokens == [] then lines else [tokens] + lines)
  }

  function PrintFile(lines: seq<seq<Printed>>): Text {
    if lines == [] then [] else PrintLine(lines[0]) + PrintFile(lines[1..])
  }

  function AllTexts(lines: seq<seq<Printed>>): seq<seq<Text>> {
    if lines == [] then [] else [Texts(lines[0])] + AllTexts(lines[1..])
  }

  lemma PrintedLineStart(xs: seq<Printed>)
    requires AllPrintable(xs) && xs != []
    ensures Texts(xs) != [] && !IsEol(PrintLine(xs)[0])
  {
  }

  lemma PrintedLineRead(t: Text, p: nat, xs: seq<Printed>)
    requires AllPrintable(xs) && xs != [] && At(t, p, PrintLine(xs))
    requires var q := p + |PrintLine(xs)|; q < |t| ==> !IsEol(t[q])
    ensures LexLine(t, p) == Line(Texts(xs), p + |PrintLine(xs)|) && Texts(xs) != []
  {
    LineRoundTrip(t, p, xs);
    PrintedLineStart(xs);
  }

  predicate Lines(lines: seq<seq<Printed>>) {
    forall xs :: xs in lines ==> xs != [] && AllPrintable(xs)
  }

  lemma PrintedFileStart(lines: seq<seq<Printed>>)
    requires lines != [] && lines[0] != [] && AllPrintable(lines[0])
    ensures PrintFile(lines) != [] && !IsEol(PrintFile(lines)[0])
  {
    PrintedLineStart(lines[0]);
  }

  lemma FirstLineAt(t: Text, p: nat, line: Text, rest: Text)
    requires At(t, p, line + rest) && p + |line| + |rest| == |t|
    requires rest != [] ==> !IsEol(rest[0])
    ensures At(t, p, line) && At(t, p + |line|, rest)
    ensures p + |line| < |t| ==> !IsEol(t[p + |line|])
  {
    AtConcat(t, p, line, rest);
    if rest != [] {
      assert t[p + |line| + 0] == rest[0];
    }
  }

  lemma LexFileStep(t: Text, p: nat, tokens: seq<Text>, q: nat)
    requires p < |t| && LexLine(t, p) == Line(tokens, q)
    ensures LexFile(t, p) == WithLine(tokens, LexFile(t, q))
  {
  }

  lemma LineThenRest(t: Text, p: nat, xs: seq<Printed>, rest: Text)
    requires AllPrintable(xs) && xs != []
    requires At(t, p, PrintLine(xs) + rest) && p + |PrintLine(xs)| + |rest| == |t|
    requires rest != [] ==> !IsEol(rest[0])
    ensures var q := p + |PrintLine(xs)|;
            At(t, q, rest) && Texts(xs) != [] && LexFile(t, p) == WithLine(Texts(xs), LexFile(t, q))
  {
    hide LexLine, BareBody, QuotedBody;
    FirstLineAt(t, p, PrintLine(xs), rest);
    PrintedLineRead(t, p, xs);
    LexFileStep(t, p, Texts(xs), p + |PrintLine(xs)|);
  }

  lemma LinesTail(lines: seq<seq<Printed>>)
    requires Lines(lines) && lines != []
    ensures lines[0] != [] && AllPrintable(lines[0]) && Lines(lines[1..])
    ensures lines[1..] != [] ==> lines[1] != [] && AllPrintable(lines[1])
  {
    assert lines[0] in lines && (|lines| > 1 ==> lines[1] in lines);
    forall xs | xs in lines[1..] ensures xs in lines {}
  }

  lemma {:induction false} FileFrom(t: Text, p: nat, lines: seq<seq<Printed>>)
    requires Lines(lines)
    requires At(t, p, PrintFile(lines)) && p + |PrintFile(lines)| == |t|
    ensures LexFile(t, p) == FileLines(AllTexts(lines))
    decreases |lines|
  {
    hide LexLine, BareBody, QuotedBody;
    if lines == [] {
    } else {
      var xs, rest := lines[0], lines[1..];
      var text, q := PrintFile(rest), p + |PrintLine(xs)|;
      LinesTail(lines);
      LineThenRest(t, p, xs, text) by {
        if rest != [] {
          PrintedFileStart(rest);
        }
      }
      FileFrom(t, q, rest);
      assert LexFile(t, p) == WithLine(Texts(xs), FileLines(AllTexts(rest)));
    }
  }

  /** A printed file reads back as its lines. */
  lemma FileRoundTrip(lines: seq<seq<Printed>>)
    requires Lines(lines)
    ensures LexFile(PrintFile(lines), 0) == FileLines(AllTexts(lines))
  {
    FileFrom(PrintFile(lines), 0, lines);
  }

  // ----- everything that is read can be printed -----

  lemma {:induction false} ScannedQuoteIsBody(t: Text, p: nat)
    requires p <= |t| && ClosingQuote(t, p) < |t|
    ensures QuotedBody(t[p..ClosingQuote(t, p)])
    decreases |t| - p
  {
    var q := ClosingQuote(t, p);
    if t[p] == QUOTE {
    } else {
      var step := if t[p] == BACKSLASH && p + 1 < |t| then 2 else 1;
      ScannedQuoteIsBody(t, p + step);
      assert t[p..q][step..] == t[p + step..q];
      assert t[p..q][0] == t[p];
    }
  }

  /** The number of backslashes a text ends with. */
  function TrailingBackslashes(s: Text): (n: nat)
    ensures n <= |s|
  {
    if s == [] || s[|s| - 1] != BACKSLASH then 0 else 1 + TrailingBackslashes(s[..|s| - 1])
  }

  /** The last byte is a backslash that is not itself escaped: there is nothing it could escape. */
  predicate EndsInEscape(s: Text) {
    TrailingBackslashes(s) % 2 == 1
  }

  lemma {:induction false} TrailingOfConcat(a: Text, b: Text)
    ensures var n := TrailingBackslashes(b);
            TrailingBackslashes(a + b) == if n < |b| then n else n + TrailingBackslashes(a)
    decreases |b|
  {
    if b == [] {
      assert a + b == a;
    } else {
      var init := b[..|b| - 1];
      assert (a + b)[..|a + b| - 1] == a + init;
      TrailingOfConcat(a, init);
    }
  }

  /** Taking off the first byte, or an escape in front, does not change whether the rest ends in an escape. */
  lemma EscapeInFront(s: Text)
    requires s != [] && (s[0] == BACKSLASH ==> |s| > 1)
    ensures EndsInEscape(s) <==> EndsInEscape(s[if s[0] == BACKSLASH then 2 else 1..])
  {
    var k := if s[0] == BACKSLASH then 2 else 1;
    assert s == s[..k] + s[k..];
    TrailingOfConcat(s[..k], s[k..]);
    assert s[..k][..k - 1] == s[..k - 1];
    assert k == 2 ==> s[..1][..0] == [];
  }

  lemma {:induction false} BodiesAreBalanced(s: Text)
    requires BareBody(s) || QuotedBody(s)
    ensures !EndsInEscape(s)
    decreases |s|
  {
    if s == [] {
    } else {
      EscapeInFront(s);
      BodiesAreBalanced(s[if s[0] == BACKSLASH then 2 else 1..]);
    }
  }

  lemma {:induction false} ScannedBareIsBody(t: Text, p: nat)
    requires p <= |t| && !EndsInEscape(t[p..BareEnd(t, p)])
    ensures BareBody(t[p..BareEnd(t, p)])
    decreases |t| - p
  {
    hide EndsInEscape;
    var q := BareEnd(t, p);
    if p == |t| || EndsBare(t[p]) {
      assert t[p..q] == [];
    } else if t[p] == BACKSLASH && p + 1 == |t| {
      LoneBackslash(t[p..q]);
    } else {
      var step := if t[p] == BACKSLASH then 2 else 1;
      assert t[p..q][0] == t[p] && t[p..q][step..] == t[p + step..q];
      EscapeInFront(t[p..q]);
      ScannedBareIsBody(t, p + step);
    }
  }

  lemma LoneBackslash(s: Text)
    requires s == [BACKSLASH]
    ensures EndsInEscape(s)
  {
    assert s[..0] == [];
  }

  lemma BlockEndsInNoEscape(s: Text)
    requires s != [] && s[|s| - 1] == GREATER
    ensures !EndsInEscape(s)
  {
  }

  /** `text` is the text of something that can be printed and read again. */
  ghost predicate CanBePrinted(text: Text) {
    exists x: Printed :: x.text == text && Printable(x)
  }

  lemma PrintableEndsInNoEscape(text: Text)
    requires CanBePrinted(text)
    ensures !EndsInEscape(text)
  {
    hide EndsInEscape, QuotedBody, BareBody;
    var x: Printed :| x.text == text && Printable(x);
    if x.style.Block? {
      BlockEndsInNoEscape(text);
    } else {
      BodiesAreBalanced(text);
    }
  }

  /** Conversely a token the lexer yields can be printed and read again exactly when it does not end in an escape. */
  lemma LexedIsPrintable(t: Text, from: nat)
    requires from <= |t| && LexToken(t, from).Token?
    ensures CanBePrinted(LexToken(t, from).text) <==> !EndsInEscape(LexToken(t, from).text)
  {
    hide EndsInEscape, QuotedBody, BareBody;
    var p := SkipBlanks(t, from);
    var text := LexToken(t, from).text;
    if CanBePrinted(text) {
      PrintableEndsInNoEscape(text);
    }
    if !EndsInEscape(text) {
      if t[p] == QUOTE {
        ScannedQuoteIsBody(t, p + 1);
        assert Printable(Printed(Quoted, text));
      } else if t[p] == LESS {
        var q := IndexFrom(t, p, GREATER);
        IndexFromIs(text, 0, GREATER, q - p);
        assert Printable(Printed(Block, text));
      } else {
        ScannedBareIsBody(t, p);
        assert Printable(Printed(Bare, text));
      }
    }
  }

  /** A token that ends in an escape is a bare one at the very end of the text. */
  lemma EscapeAtEndOnly(t: Text, from: nat)
    requires from <= |t| && LexToken(t, from).Token? && EndsInEscape(LexToken(t, from).text)
    ensures LexToken(t, from).next == |t| && t[|t| - 1] == BACKSLASH
  {
    hide EndsInEscape, QuotedBody, BareBody;
    var p := SkipBlanks(t, from);
    var text := LexToken(t, from).text;
    if t[p] == QUOTE {
      ScannedQuoteIsBody(t, p + 1);
      BodiesAreBalanced(text);
    } else if t[p] == LESS {
      BlockEndsInNoEscape(text);
    } else {
      if BareEnd(t, p) < |t| {
        BareEndsBalanced(t, p);
      }
      EscapeIsBackslash(text);
    }
  }

  lemma EscapeIsBackslash(s: Text)
    requires EndsInEscape(s)
    ensures s != [] && s[|s| - 1] == BACKSLASH
  {
  }

  lemma {:induction false} BareEndsBalanced(t: Text, p: nat)
    requires p <= |t| && BareEnd(t, p) < |t|
    ensures !EndsInEscape(t[p..BareEnd(t, p)])
    decreases |t| - p
  {
    hide EndsInEscape;
    var q := BareEnd(t, p);
    if EndsBare(t[p]) {
      assert t[p..q] == [];
      BodiesAreBalanced(t[p..q]);
    } else {
      var step := if t[p] == BACKSLASH then 2 else 1;
      assert t[p..q][0] == t[p] && t[p..q][step..] == t[p + step..q];
      EscapeInFront(t[p..q]);
      BareEndsBalanced(t, p + step);
    }
  }
}
