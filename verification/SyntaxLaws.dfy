/**
 What the small syntax means: blanks, comments and line ends, flags in any case, tags, and lines
 that are skipped or refused.
 */
module SyntaxLaws {
  import opened Options
  import opened Bytes
  import opened Directives
  import opened Lexer
  import opened RuleFlags
  import opened Parser
  import opened ParserLaws
  import opened PrinterLaws
  import opened VariableLaws

  // ----- blanks, comments and line ends -----

  /** All bytes from `p` to `q` are spaces and tabs. */
  predicate AllBlank(t: Text, p: nat, q: nat) {
    p <= q <= |t| && forall k :: p <= k < q ==> t[k] == 0x20 || t[k] == 0x09
  }

  lemma {:induction false} BlanksEnd(t: Text, p: nat, q: nat)
    requires AllBlank(t, p, q)
    ensures SkipBlanks(t, p) == SkipBlanks(t, q)
    decreases q - p
  {
    if p == q {
    } else {
      BlanksEnd(t, p + 1, q);
    }
  }

  /** Spaces and tabs before a token, a comment or a line end mean nothing. */
  lemma BlanksAreSkipped(t: Text, p: nat, q: nat)
    requires AllBlank(t, p, q)
    ensures LexLine(t, p) == LexLine(t, q)
  {
    hide SkipBlanks, TokensAt, NextLine;
    BlanksEnd(t, p, q);
  }

  /** A line end at `e` after bytes that are none, and the next line at `r`. */
  predicate LineEndsAt(t: Text, p: nat, e: nat, r: nat) {
    && p <= e <= r <= |t|
    && (forall k :: p <= k < e ==> t[k] != 0x0A && t[k] != 0x0D)
    && (forall k :: e <= k < r ==> t[k] == 0x0A || t[k] == 0x0D)
    && (e < |t| ==> e < r)
    && (r < |t| ==> t[r] != 0x0A && t[r] != 0x0D)
  }

  lemma {:induction false} ToEolIs(t: Text, p: nat, e: nat)
    requires p <= e <= |t| && (forall k :: p <= k < e ==> !IsEol(t[k])) && (e < |t| ==> IsEol(t[e]))
    ensures ToEol(t, p) == e
    decreases e - p
  {
    if p == e {
    } else {
      ToEolIs(t, p + 1, e);
    }
  }

  lemma {:induction false} PastEolsIs(t: Text, e: nat, r: nat)
    requires e <= r <= |t| && (forall k :: e <= k < r ==> IsEol(t[k])) && (r < |t| ==> !IsEol(t[r]))
    ensures PastEols(t, e) == r
    decreases r - e
  {
    if e == r {
    } else {
      PastEolsIs(t, e + 1, r);
    }
  }

  /** A line ends at the first newline or carriage return, and the next begins behind all of them. */
  lemma NextLineIs(t: Text, p: nat, e: nat, r: nat)
    requires LineEndsAt(t, p, e, r)
    ensures NextLine(t, p) == r
  {
    ToEolIs(t, p, e);
    PastEolsIs(t, e, r);
  }

  /** A hash where a token could start makes the rest of the line a comment. */
  lemma CommentIsSkipped(t: Text, p: nat, e: nat, r: nat)
    requires p < |t| && t[p] == HASH && LineEndsAt(t, p, e, r)
    ensures LexLine(t, p) == Line([], r)
  {
    NextLineIs(t, p, e, r);
    assert SkipBlanks(t, p) == p;
    assert LexTokens(t, p) == LineTokens([], p);
    hide NextLine;
  }

  /** Nor does an empty line have tokens. */
  lemma EmptyLineIsSkipped(t: Text, p: nat, r: nat)
    requires p < |t| && LineEndsAt(t, p, p, r)
    ensures LexLine(t, p) == Line([], r)
  {
    NextLineIs(t, p, p, r);
    assert SkipBlanks(t, p) == p && BareEnd(t, p) == p;
    assert LexToken(t, p) == NoToken(p);
    assert LexTokens(t, p) == LineTokens([], p);
    hide NextLine;
  }

  /** A byte that ends a bare word: a space, a tab, a line end or a hash. */
  predicate Separates(b: Byte) {
    b == 0x20 || b == 0x09 || b == 0x0A || b == 0x0D || b == 0x23
  }

  /** The bytes from `p` to `q` are a bare word: it starts neither like a quote nor a tag and has no escape. */
  predicate IsBareWord(t: Text, p: nat, q: nat) {
    && p < q <= |t| && t[p] != QUOTE && t[p] != LESS
    && (forall k :: p <= k < q ==> !Separates(t[k]) && t[k] != BACKSLASH)
    && (q < |t| ==> Separates(t[q]))
  }

  lemma {:induction false} BareEndIs(t: Text, p: nat, q: nat)
    requires p <= q <= |t| && (forall k :: p <= k < q ==> !Separates(t[k]) && t[k] != BACKSLASH)
    requires q < |t| ==> Separates(t[q])
    ensures BareEnd(t, p) == q
    decreases q - p
  {
    if p == q {
    } else {
      BareEndIs(t, p + 1, q);
    }
  }

  /** A bare word is read whole, and the line goes on behind it, at once with a comment if a hash follows. */
  lemma BareWordIsRead(t: Text, p: nat, q: nat)
    requires IsBareWord(t, p, q)
    ensures LexToken(t, p) == Token(t[p..q], q)
    ensures LexLine(t, p) == match LexLine(t, q)
                             case BrokenLine => BrokenLine
                             case Line(tokens, next) => Line([t[p..q]] + tokens, next)
  {
    BareEndIs(t, p, q);
    assert !IsBlank(t[p]) && SkipBlanks(t, p) == p;
    assert LexTokens(t, p) == Prefixed([t[p..q]], LexTokens(t, q));
    hide TokensAt, NextLine;
  }

  // ----- the OR flag of a condition -----

  function Spaces(n: nat): Text {
    seq(n, k => SPACE)
  }

  lemma {:induction false} SpacesAreStripped(n: nat, s: Text)
    requires s == [] || s[0] != SPACE
    ensures StripSpaces(Spaces(n) + s) == s
    decreases n
  {
    var t := Spaces(n) + s;
    if n == 0 {
      assert t == s;
    } else {
      assert t[0] == SPACE && t[1..] == Spaces(n - 1) + s;
      SpacesAreStripped(n - 1, s);
    }
  }

  /** The flag is OR in any case, alone or in brackets, behind any spaces, whatever follows it. */
  lemma OrFlagForms(n: nat, flag: Text)
    ensures OrFlag(Spaces(n) + [OPEN_BRACKET] + flag + [CLOSE_BRACKET]) <==> Begins(flag, Ascii("OR"))
    ensures flag != [] && flag[0] != SPACE && flag[0] != OPEN_BRACKET ==>
              (OrFlag(Spaces(n) + flag) <==> Begins(flag, Ascii("OR")))
  {
    hide StripSpaces, StartsWithNoCase, Begins;
    var bracketed := [OPEN_BRACKET] + flag + [CLOSE_BRACKET];
    SpacesAreStripped(n, bracketed);
    assert Spaces(n) + [OPEN_BRACKET] + flag + [CLOSE_BRACKET] == Spaces(n) + bracketed;
    assert bracketed[1..|bracketed| - 1] == flag;
    BeginsIsStarts(flag, Ascii("OR"));
    if flag != [] && flag[0] != SPACE && flag[0] != OPEN_BRACKET {
      SpacesAreStripped(n, flag);
    }
  }

  // ----- the flags of a rule -----

  lemma IsSameLetters(part: Text, word: Text)
    ensures Is(part, word) <==> SameLetters(part, word)
  {
    if |part| == |word| {
      FoldedAlike(part, word);
      assert part[..|word|] == part;
    }
  }

  /** END, NC, QSA and E= are taken in any case, L and C as capitals only; one-letter parts are nothing else. */
  lemma FlagsInAnyCase(rule: Rule, part: Text)
    ensures SameLetters(part, Ascii("END")) ==> WithPart(rule, part) == rule.(end := true)
    ensures SameLetters(part, Ascii("NC")) ==> WithPart(rule, part) == rule.(nocase := true)
    ensures SameLetters(part, Ascii("QSA")) ==> WithPart(rule, part) == rule.(qsa := true)
    ensures part == [0x4C] ==> WithPart(rule, part) == rule.(last := true)
    ensures part == [0x43] ==> WithPart(rule, part) == rule.(chain := true)
    ensures |part| == 1 && part[0] != 0x4C && part[0] != 0x43 ==> WithPart(rule, part) == rule
  {
    hide StartsWithNoCase, Is, RedirectCode;
    IsSameLetters(part, Ascii("END"));
    IsSameLetters(part, Ascii("NC"));
    IsSameLetters(part, Ascii("QSA"));
    BeginsIsStarts(part, Ascii("E="));
  }

  /** `E=entry` in any case adds the entry. */
  lemma EnvFlagIsRead(rule: Rule, part: Text, entry: Text)
    requires SameLetters(part, Ascii("E="))
    ensures WithPart(rule, part + entry) == rule.(envVars := rule.envVars + [entry])
  {
    var t := part + entry;
    hide StartsWithNoCase, Is, RedirectCode;
    IsSameLetters(t, Ascii("END"));
    IsSameLetters(t, Ascii("NC"));
    IsSameLetters(t, Ascii("QSA"));
    BeginsIsStarts(t, Ascii("E="));
    assert t[..2] == part && t[2..] == entry;
    assert t[1] == part[1] && SameLetter(part[1], EQUALS);
  }

  /** R in any case with anything behind it redirects, with the number behind the first equals sign, or with 302. */
  lemma RedirectFlagIsRead(rule: Rule, part: Text)
    requires |part| >= 2 && (part[0] == 0x52 || part[0] == 0x72)
    ensures var r := WithPart(rule, part);
            && r == rule.(redirect := true, redirectCode := r.redirectCode)
            && (EQUALS !in part ==> r.redirectCode == 302)
            && (forall n: nat :: part[1..] == [EQUALS] + PrintNumber(n) ==>
                  r.redirectCode == if n <= 9223372036854775807 then n else 302)
  {
    hide Is, PrintNumber, Decimal, AllDigits;
    IsSameLetters(part, Ascii("END"));
    IsSameLetters(part, Ascii("NC"));
    forall n: nat | part[1..] == [EQUALS] + PrintNumber(n)
      ensures RedirectCode(part) == if n <= 9223372036854775807 then n else 302
    {
      NumberRoundTrip(n);
      assert part[1] == part[1..][0] && part[2..] == part[1..][1..] == PrintNumber(n);
      IndexFromIs(part, 0, EQUALS, 1);
    }
    assert EQUALS !in part ==> IndexFrom(part, 0, EQUALS) == |part|;
  }

  /** Spaces and opening brackets in front of a part, and spaces and closing brackets behind it, are taken off. */
  lemma {:induction false} PartIsTrimmed(front: Text, part: Text, back: Text)
    requires forall b :: b in front ==> b == SPACE || b == OPEN_BRACKET
    requires forall b :: b in back ==> b == SPACE || b == CLOSE_BRACKET
    requires part != [] && !Opens(part[0]) && !Closes(part[|part| - 1])
    ensures Trim(front + part + back) == part
  {
    FrontIsTrimmed(front, part + back);
    assert front + part + back == front + (part + back);
    BackIsTrimmed(part, back);
  }

  lemma {:induction false} FrontIsTrimmed(front: Text, rest: Text)
    requires forall b :: b in front ==> b == SPACE || b == OPEN_BRACKET
    requires rest != [] && !Opens(rest[0])
    ensures TrimStart(front + rest) == rest
    decreases |front|
  {
    if front == [] {
      assert front + rest == rest;
    } else {
      assert front[0] in front && (front + rest)[1..] == front[1..] + rest;
      forall b | b in front[1..] ensures b in front {}
      FrontIsTrimmed(front[1..], rest);
    }
  }

  lemma {:induction false} BackIsTrimmed(part: Text, back: Text)
    requires forall b :: b in back ==> b == SPACE || b == CLOSE_BRACKET
    requires part != [] && !Closes(part[|part| - 1])
    ensures TrimEnd(part + back) == part
    decreases |back|
  {
    if back == [] {
      assert part + back == part;
    } else {
      var init := back[..|back| - 1];
      assert back[|back| - 1] in back && (part + back)[..|part + back| - 1] == part + init;
      forall b | b in init ensures b in back {}
      BackIsTrimmed(part, init);
    }
  }

  // ----- lines -----

  lemma StepAfter(before: seq<seq<Text>>, line: seq<Text>)
    requires After(before).Next?
    ensures After(before + [line]) == LineStep(After(before).s, line)
  {
    hide LineStep;
    assert (before + [line])[..|before|] == before;
  }

  /** A word that is no directive's name in any case. */
  predicate IsUnknown(word: Text) {
    forall k :: 0 <= k < |NAMES| ==> !SameLetters(word, Ascii(NAMES[k].0))
  }

  lemma {:induction false} UnknownIsNotFound(word: Text, k: nat)
    requires IsUnknown(word) && k <= |NAMES|
    ensures FindName(NAMES[k..], word) == None
    decreases |NAMES| - k
  {
    hide Is, SameLetters, FindName, Ascii;
    if k == |NAMES| {
      assert NAMES[k..] == [];
      NoNames(word);
    } else {
      FindNameStep(NAMES, k, word);
      IsSameLetters(word, Ascii(NAMES[k].0));
      UnknownIsNotFound(word, k + 1);
    }
  }

  lemma NoNames(word: Text)
    ensures FindName([], word) == None
  {
  }

  /** A file means the same without a line that starts with an unknown word. */
  lemma UnknownWordIsSkipped(before: seq<seq<Text>>, line: seq<Text>, rest: seq<seq<Text>>)
    requires After(before).Next? && line != [] && !IsTag(line[0]) && IsUnknown(line[0])
    ensures After(before + [line] + rest) == After(before + rest)
  {
    hide FindName, IsTag, IsUnknown, After, DirectiveStep;
    UnknownIsNotFound(line[0], 0);
    assert NAMES[0..] == NAMES;
    assert LineStep(After(before).s, line) == Next(After(before).s);
    SkippedLine(before, line, rest);
  }

  lemma SkippedLine(before: seq<seq<Text>>, line: seq<Text>, rest: seq<seq<Text>>)
    requires After(before).Next? && LineStep(After(before).s, line) == After(before)
    ensures After(before + [line] + rest) == After(before + rest)
  {
    hide LineStep, After;
    var start := Next(INITIAL_STATE);
    StepAfter(before, line);
    AfterIsContinue(before);
    AfterIsContinue(before + [line]);
    AfterIsContinue(before + [line] + rest);
    AfterIsContinue(before + rest);
    ContinueConcat(start, before + [line], rest);
    ContinueConcat(start, before, rest);
  }

  /** The names of directives that need two arguments. */
  predicate NeedsTwo(name: Name) {
    name.NameRewriteRule? || name.NameRedirection? || name.NameHeader? || name.NameExpiresByType?
    || name.NameErrorDocument?
  }

  /** A file with such a directive of fewer arguments, or a condition without a test, is refused as a whole. */
  lemma ShortLineRefusesFile(before: seq<seq<Text>>, line: seq<Text>, rest: seq<seq<Text>>, name: Name)
    requires After(before).Next? && line != [] && !IsTag(line[0]) && FindName(NAMES, line[0]) == Some(name)
    requires (NeedsTwo(name) && |line| < 3) || (name.NameRewriteCond? && |line| < 2)
    ensures After(before + [line] + rest) == Rejected
  {
    hide FindName, IsTag, After;
    var start := Next(INITIAL_STATE);
    StepAfter(before, line);
    AfterIsContinue(before + [line]);
    AfterIsContinue(before + [line] + rest);
    ContinueConcat(start, before + [line], rest);
    hide LineStep;
  }

  /** `<word ...>` opens a block, unless 15 are open, and `</...>` closes the innermost; nothing else changes. */
  lemma TagsOpenAndClose(before: seq<seq<Text>>, s: Text)
    requires After(before).Next?
    ensures s == [] || s[0] != SLASH ==>
              var tag, state := [LESS] + s + [GREATER], After(before).s;
              After(before + [[tag]]) ==
              Next(state.(stack := if |state.stack| < 15 then state.stack + [FilesPattern(tag)] else state.stack))
    ensures var tag, state := [LESS, SLASH] + s + [GREATER], After(before).s;
            After(before + [[tag]]) == Next(state.(stack := if state.stack == [] then []
                                                            else state.stack[..|state.stack| - 1]))
  {
    hide FilesPattern, After;
    StepAfter(before, [[LESS] + s + [GREATER]]);
    StepAfter(before, [[LESS, SLASH] + s + [GREATER]]);
  }

  /** The arguments of Require are put together in order, with single spaces between them. */
  lemma {:induction false} JoinedInOrder(args: seq<Text>, from: nat)
    requires from + 1 < |args|
    ensures Joined(args, from) == args[from] + [SPACE] + Joined(args, from + 1)
    decreases |args|
  {
    var init, last := args[..|args| - 1], args[|args| - 1];
    if from + 2 == |args| {
      assert init[|init| - 1] == args[from];
    } else {
      JoinedInOrder(init, from);
      assert Joined(args, from) == Joined(init, from) + [SPACE] + last;
      assert Joined(args, from + 1) == Joined(init, from + 1) + [SPACE] + last;
      assert args[from] + [SPACE] + Joined(init, from + 1) + [SPACE] + last
          == args[from] + [SPACE] + (Joined(init, from + 1) + [SPACE] + last);
    }
  }

  lemma JoinedAlone(args: seq<Text>)
    requires args != []
    ensures Joined(args, |args| - 1) == args[|args| - 1]
  {
  }

  // ----- directives -----

  /** Directive names are recognised in any case. */
  lemma NameInAnyCase(word: Text, name: Name)
    requires SameLetters(word, WordOf(name))
    ensures FindName(NAMES, word) == Some(name)
  {
    hide FindName, WordOf, Position, SameLetters;
    FoundInAnyCase(word, name, 0);
    assert NAMES[0..] == NAMES;
  }

  lemma {:induction false} FoundInAnyCase(word: Text, name: Name, k: nat)
    requires SameLetters(word, WordOf(name)) && k <= Position(name)
    ensures Position(name) < |NAMES| && FindName(NAMES[k..], word) == Some(name)
    decreases Position(name) - k
  {
    hide Is, Spelling, Position, FindName, Ascii, SameLetters;
    PositionIsInTable(name);
    RowIsSpelt(k);
    RowIsPosition(k);
    FindNameStep(NAMES, k, word);
    IsSameLetters(word, WordOf(name));
    if k == Position(name) {
    } else {
      WordsDiffer(name, NAMES[k].1);
      OtherWord(word, WordOf(name), WordOf(NAMES[k].1));
      FoundInAnyCase(word, name, k + 1);
    }
  }

  lemma OtherWord(word: Text, own: Text, other: Text)
    requires Is(word, own) && !Is(own, other)
    ensures !Is(word, other)
  {
    assert word[..|own|] == word && own[..|own|] == own;
  }

  /** `on` in any case switches on, anything else off. */
  lemma OnInAnyCase(arg: Text)
    ensures IsOn(arg) <==> SameLetters(arg, Ascii("on"))
  {
    hide Is, SameLetters;
    IsSameLetters(arg, Ascii("on"));
  }

  /** Options takes the indexes away if its argument begins with -Indexes in any case. */
  lemma IndexesInAnyCase(word: Text, arg: Text, pending: seq<Cond>)
    ensures BodyOf(NameOptions, [word, arg], pending) == GotBody(Indexes(Begins(arg, Ascii("-Indexes"))))
  {
    hide StartsWithNoCase, Begins;
    BeginsIsStarts(arg, Ascii("-Indexes"));
  }

  /** A Redirect is permanent if its third argument begins with 301; the other kinds need no argument for it. */
  lemma WhenRedirectIsPermanent(kind: AliasKind, args: seq<Text>)
    ensures IsPermanent(kind, args) <==>
            match kind
            case Redirect => |args| > 3 && |args[3]| >= 3 && args[3][..3] == Ascii("301")
            case RedirectMatch => true
            case RedirectPermanent => true
            case RedirectTemp => false
  {
  }

  /** Header takes action, name and value behind an optional `always`; the value may be missing, the name not. */
  lemma HeaderForms(word: Text, always: Text, action: Text, name: Text, value: Text)
    requires SameLetters(always, Ascii("always")) && !SameLetters(action, Ascii("always"))
    ensures HeaderOf([word, action, name]) == GotBody(SetHeader(Header(action, name, [], false)))
    ensures HeaderOf([word, action, name, value]) == GotBody(SetHeader(Header(action, name, value, false)))
    ensures HeaderOf([word, always, action]) == BadArguments
    ensures HeaderOf([word, always, action, name]) == GotBody(SetHeader(Header(action, name, [], true)))
    ensures HeaderOf([word, always, action, name, value]) == GotBody(SetHeader(Header(action, name, value, true)))
  {
    hide Is, SameLetters;
    IsSameLetters(always, Ascii("always"));
    IsSameLetters(action, Ascii("always"));
  }

  /** A condition whose test opens a variable with `%{`, goes on, and never closes it refuses the whole file. */
  lemma UnclosedTestRefusesFile(before: seq<seq<Text>>, line: seq<Text>, rest: seq<seq<Text>>)
    requires After(before).Next? && |line| >= 2 && !IsTag(line[0]) && FindName(NAMES, line[0]) == Some(NameRewriteCond)
    requires var test := line[1]; |test| >= 3 && test[..2] == [PERCENT, OPEN_BRACE] && CLOSE_BRACE !in test
    ensures After(before + [line] + rest) == Rejected
  {
    hide FindName, IsTag, After;
    var start := Next(INITIAL_STATE);
    var test := line[1];
    assert test[0] == test[..2][0] && test[1] == test[..2][1];
    assert IndexFrom(test, 2, CLOSE_BRACE) == |test|;
    StepAfter(before, line);
    AfterIsContinue(before + [line]);
    AfterIsContinue(before + [line] + rest);
    ContinueConcat(start, before + [line], rest);
    hide LineStep;
  }

  // ----- FilesMatch -----

  /** `<FilesMatch "pattern" ...>` in any case, with any blanks before the quote: the pattern up to the next quote. */
  lemma FilesMatchForms(word: Text, blanks: Text, pattern: Text, more: Text)
    requires SameLetters(word, Ascii("FilesMatch")) && QUOTE !in pattern
    requires forall b :: b in blanks ==> b == 0x20 || b == 0x09
    ensures FilesPattern([LESS] + word + blanks + [QUOTE] + pattern + [QUOTE] + more + [GREATER]) == pattern
  {
    hide StartsWithNoCase;
    var inner := [LESS] + word + blanks + [QUOTE] + pattern + [QUOTE] + more;
    var tag := inner + [GREATER];
    assert tag[..|tag| - 1] == inner;
    assert tag == [LESS] + word + blanks + [QUOTE] + pattern + [QUOTE] + more + [GREATER];
    BeginsIsStarts(tag[1..], Ascii("FilesMatch"));
    assert tag[1..][..10] == word;
    var p, n := 11 + |blanks|, |pattern|;
    forall k | 11 <= k < p ensures inner[k] == 0x20 || inner[k] == 0x09 {
      assert inner[k] == blanks[k - 11] && blanks[k - 11] in blanks;
    }
    BlanksEnd(inner, 11, p);
    assert inner[p] == QUOTE && inner[p + 1..p + 1 + n] == pattern && inner[p + 1 + n] == QUOTE;
    assert SkipBlanks(inner, 11) == p;
    forall k | p + 1 <= k < p + 1 + n ensures inner[k] != QUOTE {
      assert inner[k] == inner[p + 1..p + 1 + n][k - p - 1];
    }
    IndexFromIs(inner, p + 1, QUOTE, p + 1 + n);
  }

  /** Other tags, and those whose pattern is not quoted, have no pattern. */
  lemma NoFilesMatch(tag: Text)
    ensures tag != [] && !Begins(tag[1..], Ascii("FilesMatch")) ==> FilesPattern(tag) == []
    ensures QUOTE !in tag ==> FilesPattern(tag) == []
  {
    hide StartsWithNoCase, Begins;
    if tag != [] {
      BeginsIsStarts(tag[1..], Ascii("FilesMatch"));
      var inner := tag[..|tag| - 1];
      assert forall k :: 0 <= k < |inner| ==> inner[k] == tag[k] && tag[k] in tag;
    }
  }
}
