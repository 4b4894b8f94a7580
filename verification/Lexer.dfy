/** The line tokenizer (htaccess_lexer.c): quotes, backslash escapes, `<...>` blocks and comments. */
module Lexer {
  import opened Bytes

  predicate IsBlank(b: Byte) {
    b == SPACE || b == TAB
  }

  predicate IsEol(b: Byte) {
    b == NEWLINE || b == RETURN
  }

  /** A byte that ends a bare token. */
  predicate EndsBare(b: Byte) {
    IsBlank(b) || IsEol(b) || b == HASH
  }

  // ----- where the scans stop -----

  function SkipBlanks(t: Text, p: nat): (q: nat)
    requires p <= |t|
    ensures p <= q <= |t|
    ensures q < |t| ==> !IsBlank(t[q])
    ensures p < |t| && !IsBlank(t[p]) ==> q == p
    decreases |t| - p
  {
    if p < |t| && IsBlank(t[p]) then SkipBlanks(t, p + 1) else p
  }

  function ToEol(t: Text, p: nat): (q: nat)
    requires p <= |t|
    ensures p <= q <= |t|
    ensures q < |t| ==> IsEol(t[q])
    decreases |t| - p
  {
    if p < |t| && !IsEol(t[p]) then ToEol(t, p + 1) else p
  }

  function PastEols(t: Text, p: nat): (q: nat)
    requires p <= |t|
    ensures p <= q <= |t|
    ensures forall k :: p <= k < q ==> IsEol(t[k])
    ensures q < |t| ==> !IsEol(t[q])
    decreases |t| - p
  {
    if p < |t| && IsEol(t[p]) then PastEols(t, p + 1) else p
  }

  function NextLine(t: Text, p: nat): (q: nat)
    requires p <= |t|
    ensures p <= q <= |t|
    ensures p < |t| ==> p < q
  {
    PastEols(t, ToEol(t, p))
  }

  /** The closing quote of a quoted token whose contents start at `p`, or |t|. */
  function ClosingQuote(t: Text, p: nat): (q: nat)
    requires p <= |t|
    ensures p <= q <= |t|
    ensures q < |t| ==> t[q] == QUOTE
    decreases |t| - p
  {
    if p == |t| || t[p] == QUOTE then p
    else if t[p] == BACKSLASH && p + 1 < |t| then ClosingQuote(t, p + 2)
    else ClosingQuote(t, p + 1)
  }

  function BareEnd(t: Text, p: nat): (q: nat)
    requires p <= |t|
    ensures p <= q <= |t|
    ensures q < |t| ==> EndsBare(t[q])
    decreases |t| - p
  {
    if p == |t| || EndsBare(t[p]) then p
    else if t[p] == BACKSLASH && p + 1 < |t| then BareEnd(t, p + 2)
    else BareEnd(t, p + 1)
  }

  // ----- tokens and lines -----

  datatype Lexed = Token(text: Text, next: nat) | NoToken(next: nat) | Malformed

  function LexToken(t: Text, from: nat): (l: Lexed)
    requires from <= |t|
    ensures l.Token? ==> from < l.next <= |t|
    ensures l.NoToken? ==> from <= l.next <= |t|
  {
    var p := SkipBlanks(t, from);
    if p == |t| || t[p] == HASH then NoToken(NextLine(t, p))
    else if t[p] == QUOTE then
      var q := ClosingQuote(t, p + 1);
      if q == |t| then Malformed else Token(t[p + 1..q], q + 1)
    else if t[p] == LESS then
      var q := IndexFrom(t, p, GREATER);
      if q == |t| then Malformed else Token(t[p..q + 1], q + 1)
    else
      var q := BareEnd(t, p);
      if q == p then NoToken(p) else Token(t[p..q], q)
  }

  datatype LineTokens = BadLine | LineTokens(tokens: seq<Text>, stop: nat)

  /** The tokens from `p` to the end of the line, and where the last one ends. */
  function LexTokens(t: Text, p: nat): (l: LineTokens)
    requires p <= |t|
    ensures l.LineTokens? ==> p <= l.stop <= |t|
    decreases |t| - p, 1
  {
    TokensAt(t, SkipBlanks(t, p))
  }

  function TokensAt(t: Text, s: nat): (l: LineTokens)
    requires s <= |t| && (s < |t| ==> !IsBlank(t[s]))
    ensures l.LineTokens? ==> s <= l.stop <= |t|
    decreases |t| - s, 0
  {
    if s == |t| || t[s] == HASH then LineTokens([], s)
    else
      match LexToken(t, s)
      case Malformed => BadLine
      case NoToken(_) => LineTokens([], s)
      case Token(text, next) => Prefixed([text], LexTokens(t, next))
  }

  function Prefixed(tokens: seq<Text>, rest: LineTokens): LineTokens {
    match rest
    case BadLine => BadLine
    case LineTokens(more, stop) => LineTokens(tokens + more, stop)
  }

  datatype Line = BrokenLine | Line(tokens: seq<Text>, next: nat)

  function LexLine(t: Text, p: nat): (l: Line)
    requires p <= |t|
    ensures l.Line? ==> p <= l.next <= |t| && (p < |t| ==> p < l.next)
  {
    match LexTokens(t, p)
    case BadLine => BrokenLine
    case LineTokens(tokens, stop) => Line(tokens, NextLine(t, stop))
  }

  // ----- the scanning loops -----

  method SkipSpace(t: Text, from: nat) returns (p: nat)
    requires from <= |t|
    ensures p == SkipBlanks(t, from)
  {
    p := from;
    while p < |t| && (t[p] == SPACE || t[p] == TAB)
      invariant p <= |t| && SkipBlanks(t, p) == SkipBlanks(t, from)
    {
      p := p + 1;
    }
  }

  method SkipLine(t: Text, from: nat) returns (p: nat)
    requires from <= |t|
    ensures p == NextLine(t, from)
  {
    p := from;
    while p < |t| && t[p] != NEWLINE && t[p] != RETURN
      invariant p <= |t| && ToEol(t, p) == ToEol(t, from)
    {
      p := p + 1;
    }
    while p < |t| && (t[p] == NEWLINE || t[p] == RETURN)
      invariant p <= |t| && PastEols(t, p) == NextLine(t, from)
    {
      p := p + 1;
    }
  }

  /** `htaccess_read_quoted`, `from` being the opening quote. */
  method ReadQuoted(t: Text, from: nat) returns (l: Lexed)
    requires from < |t| && t[from] == QUOTE
    ensures var q := ClosingQuote(t, from + 1);
            l == if q == |t| then Malformed else Token(t[from + 1..q], q + 1)
  {
    var p := from + 1;
    while p < |t| && t[p] != QUOTE
      invariant from + 1 <= p <= |t| && ClosingQuote(t, p) == ClosingQuote(t, from + 1)
    {
      if t[p] == BACKSLASH && p + 1 < |t| {
        p := p + 2;
        continue;
      }
      p := p + 1;
    }
    if p >= |t| {
      return Malformed;
    }
    return Token(t[from + 1..p], p + 1);
  }

  method ReadToken(t: Text, from: nat) returns (l: Lexed)
    requires from <= |t|
    ensures l == LexToken(t, from)
  {
    hide SkipBlanks, NextLine, ClosingQuote;
    var start := SkipSpace(t, from);
    if start >= |t| || t[start] == HASH {
      var next := SkipLine(t, start);
      return NoToken(next);
    }
    if t[start] == QUOTE {
      l := ReadQuoted(t, start);
      return;
    }
    var p := start;
    if t[start] == LESS {
      while p < |t| && t[p] != GREATER
        invariant start <= p <= |t| && IndexFrom(t, p, GREATER) == IndexFrom(t, start, GREATER)
      {
        p := p + 1;
      }
      if p >= |t| {
        return Malformed;
      }
      return Token(t[start..p + 1], p + 1);
    }
    while p < |t| && !EndsBare(t[p])
      invariant start <= p <= |t| && BareEnd(t, p) == BareEnd(t, start)
    {
      if t[p] == BACKSLASH && p + 1 < |t| {
        p := p + 2;
        continue;
      }
      p := p + 1;
    }
    return if p > start then Token(t[start..p], p) else NoToken(p);
  }

  /** `htaccess_lex_line`. */
  method ReadLine(t: Text, from: nat) returns (l: Line)
    requires from <= |t|
    ensures l == LexLine(t, from)
  {
    var p := from;
    var tokens: seq<Text> := [];
    while p < |t|
      invariant p <= |t|
      invariant LexTokens(t, from) == Prefixed(tokens, LexTokens(t, p))
      decreases |t| - p
    {
      ghost var p0 := p;
      p := SkipSpace(t, p);
      if p >= |t| || t[p] == HASH {
        assert tokens + [] == tokens;
        break;
      }
      var token := ReadToken(t, p);
      if token.Malformed? {
        return BrokenLine;
      }
      if token.NoToken? {
        assert tokens + [] == tokens;
        break;
      }
      if LexTokens(t, token.next).LineTokens? {
        assert tokens + ([token.text] + LexTokens(t, token.next).tokens)
            == (tokens + [token.text]) + LexTokens(t, token.next).tokens;
      }
      tokens := tokens + [token.text];
      p := token.next;
    }
    assert tokens + [] == tokens;
    var next := SkipLine(t, p);
    return Line(tokens, next);
  }
}
