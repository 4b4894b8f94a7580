/** The .htaccess parser (htaccess_parser.c): directives, their arguments, and nested blocks. */
module Parser {
  import opened Options
  import opened Bytes
  import opened Directives
  import opened Lexer
  import opened RuleFlags

  const MAX_DEPTH: nat := 15

  // ----- directive names -----

  datatype Name =
    | NameRewriteEngine | NameRewriteBase | NameRewriteCond | NameRewriteRule
    | NameRedirection(kind: AliasKind) | NameSetting(setting: Setting)
    | NameRequire | NameAllow | NameDeny
    | NameHeader | NameExpiresActive | NameExpiresByType
    | NameErrorDocument | NameOptions

  const NAMES: seq<(string, Name)> := [
    ("RewriteEngine", NameRewriteEngine),
    ("RewriteBase", NameRewriteBase),
    ("RewriteCond", NameRewriteCond),
    ("RewriteRule", NameRewriteRule),
    ("Redirect", NameRedirection(Redirect)),
    ("RedirectMatch", NameRedirection(RedirectMatch)),
    ("RedirectPermanent", NameRedirection(RedirectPermanent)),
    ("RedirectTemp", NameRedirection(RedirectTemp)),
    ("AuthType", NameSetting(AuthType)),
    ("AuthName", NameSetting(AuthName)),
    ("AuthUserFile", NameSetting(AuthUserFile)),
    ("Require", NameRequire),
    ("Order", NameSetting(Order)),
    ("Allow", NameAllow),
    ("Deny", NameDeny),
    ("Header", NameHeader),
    ("ExpiresActive", NameExpiresActive),
    ("ExpiresByType", NameExpiresByType),
    ("ExpiresDefault", NameSetting(ExpiresDefault)),
    ("ErrorDocument", NameErrorDocument),
    ("Options", NameOptions),
    ("DirectoryIndex", NameSetting(DirectoryIndex))]

  function FindName(table: seq<(string, Name)>, word: Text): Option<Name> {
    if table == [] then None
    else if Is(word, Ascii(table[0].0)) then Some(table[0].1)
    else FindName(table[1..], word)
  }

  /** `htaccess_directive_id`. */
  method DirectiveId(word: Text) returns (name: Option<Name>)
    ensures name == FindName(NAMES, word)
  {
    hide Is;
    for i := 0 to |NAMES|
      invariant FindName(NAMES, word) == FindName(NAMES[i..], word)
    {
      if Is(word, Ascii(NAMES[i].0)) {
        return Some(NAMES[i].1);
      }
      assert NAMES[i..][1..] == NAMES[i + 1..];
    }
    return None;
  }

  // ----- arguments -----

  /** The arguments from `from` on, joined with single spaces. */
  function Joined(args: seq<Text>, from: nat): Text
    requires from < |args|
    decreases |args|
  {
    var n := |args| - 1;
    if n == from then args[n] else Joined(args[..n], from) + [SPACE] + args[n]
  }

  /** `htaccess_join_args`: measure the joined arguments, then write them into a buffer of that size. */
  method JoinArgs(args: seq<Text>, from: nat) returns (out: Option<Text>)
    ensures out == if |args| <= from then None else Some(Joined(args, from))
  {
    if |args| <= from {
      return None;
    }
    var len := JoinedLength(args, from);
    var buf := new Byte[len];
    hide Joined;
    JoinedOne(args, from);
    JoinedGrows(args, from, from + 1);
    var p: nat := CopyTo(buf, 0, args[from]);
    for i := from + 1 to |args|
      invariant p <= buf.Length && buf[..p] == Joined(args[..i], from)
    {
      JoinedNext(args, from, i);
      JoinedGrows(args, from, i + 1);
      buf[p] := SPACE;
      assert buf[..p + 1] == buf[..p] + [SPACE];
      p := CopyTo(buf, p + 1, args[i]);
    }
    assert args[..|args|] == args;
    return Some(buf[..p]);
  }

  method JoinedLength(args: seq<Text>, from: nat) returns (len: nat)
    requires from < |args|
    ensures len == |Joined(args, from)|
  {
    hide Joined;
    JoinedOne(args, from);
    len := |args[from]|;
    for i := from + 1 to |args|
      invariant len == |Joined(args[..i], from)|
    {
      JoinedNext(args, from, i);
      len := len + |args[i]| + 1;
    }
    assert args[..|args|] == args;
  }

  lemma JoinedOne(args: seq<Text>, from: nat)
    requires from < |args|
    ensures Joined(args[..from + 1], from) == args[from]
  {
  }

  lemma JoinedNext(args: seq<Text>, from: nat, i: nat)
    requires from < i < |args|
    ensures Joined(args[..i + 1], from) == Joined(args[..i], from) + [SPACE] + args[i]
  {
    assert args[..i + 1][..i] == args[..i];
  }

  lemma {:induction false} JoinedGrows(args: seq<Text>, from: nat, n: nat)
    requires from < n <= |args|
    ensures |Joined(args[..n], from)| <= |Joined(args, from)|
    decreases |args|
  {
    if n == |args| {
      assert args[..n] == args;
    } else {
      var init := args[..|args| - 1];
      assert init[..n] == args[..n];
      JoinedGrows(init, from, n);
    }
  }

  predicate IsOn(arg: Text) {
    Is(arg, Ascii("on"))
  }

  function StripSpaces(s: Text): Text {
    if s != [] && s[0] == SPACE then StripSpaces(s[1..]) else s
  }

  /** The OR flag of a condition: the third argument, brackets removed, starts with OR. */
  predicate OrFlag(flags: Text) {
    var s := StripSpaces(flags);
    var inner := if |s| >= 2 && s[0] == OPEN_BRACKET && s[|s| - 1] == CLOSE_BRACKET then s[1..|s| - 1] else s;
    StartsWithNoCase(inner, Ascii("OR"))
  }

  /** A test string that opens a variable and does not close it. */
  predicate IsUnclosed(test: Text) {
    |test| >= 3 && test[0] == PERCENT && test[1] == OPEN_BRACE && IndexFrom(test, 2, CLOSE_BRACE) == |test|
  }

  /** A RewriteCond line; None when a `%{` in its test string is not closed or an argument is missing. */
  function CondOf(args: seq<Text>): Option<Cond> {
    if |args| < 2 then None
    else
      var test := args[1];
      if IsUnclosed(test) then None
      else Some(Cond(test, if |args| > 2 then Some(args[2]) else None, |args| > 3 && OrFlag(args[3])))
  }

  /** `htaccess_parse_rewrite_cond`, up to the classification of test and operator. */
  method ParseRewriteCond(args: seq<Text>) returns (cond: Option<Cond>)
    ensures cond == CondOf(args)
  {
    if |args| < 2 {
      return None;
    }
    var test := args[1];
    if |test| >= 3 && test[0] == PERCENT && test[1] == OPEN_BRACE {
      if IndexFrom(test, 2, CLOSE_BRACE) == |test| {
        return None;
      }
    }
    if |args| == 2 {
      return Some(Cond(test, None, false));
    }
    var orNext := false;
    if |args| > 3 {
      var stripped := args[3];
      while |stripped| > 0 && stripped[0] == SPACE
        invariant StripSpaces(stripped) == StripSpaces(args[3])
      {
        stripped := stripped[1..];
      }
      if |stripped| >= 2 && stripped[0] == OPEN_BRACKET && stripped[|stripped| - 1] == CLOSE_BRACKET {
        stripped := stripped[1..|stripped| - 1];
      }
      orNext := StartsWithNoCase(stripped, Ascii("OR"));
    }
    return Some(Cond(test, Some(args[2]), orNext));
  }

  function PlainRule(pattern: Text, substitution: Text, conditions: seq<Cond>): Rule {
    Rule(pattern, substitution, false, false, false, false, 0, false, false, false, [], conditions)
  }

  /** What one directive line yields; `Unspecified` where the C code reads an argument the line does not have. */
  datatype BodyResult = GotBody(body: Body) | BadArguments | Unspecified

  predicate ReadsArgumentUnchecked(name: Name) {
    match name
    case NameRewriteEngine => true
    case NameRewriteBase => true
    case NameSetting(_) => true
    case NameRequire => true
    case NameAllow => true
    case NameDeny => true
    case NameExpiresActive => true
    case NameOptions => true
    case _ => false
  }

  function HeaderOf(args: seq<Text>): BodyResult
    requires |args| >= 3
  {
    var always := Is(args[1], Ascii("always"));
    var at := if always then 2 else 1;
    if |args| <= at + 1 then BadArguments
    else GotBody(SetHeader(Header(args[at], args[at + 1], if |args| > at + 2 then args[at + 2] else [], always)))
  }

  predicate IsPermanent(kind: AliasKind, args: seq<Text>) {
    || kind == RedirectPermanent
    || kind == RedirectMatch
    || (kind == Redirect && |args| > 3 && Ascii("301") <= args[3])
  }

  function BodyOf(name: Name, args: seq<Text>, pending: seq<Cond>): BodyResult {
    if ReadsArgumentUnchecked(name) then
      if |args| < 2 then Unspecified
      else
        match name
        case NameRewriteEngine => GotBody(RewriteEngine(IsOn(args[1])))
        case NameRewriteBase => GotBody(RewriteBase(args[1]))
        case NameSetting(setting) => GotBody(Set(setting, args[1]))
        case NameRequire => GotBody(Require(Joined(args, 1)))
        case NameAllow => GotBody(Allow(args[1]))
        case NameDeny => GotBody(Deny(args[1]))
        case NameExpiresActive => GotBody(ExpiresActive(IsOn(args[1])))
        case _ => GotBody(Indexes(StartsWithNoCase(args[1], Ascii("-Indexes"))))
    else if |args| < 3 then BadArguments
    else
      match name
      case NameRewriteRule =>
        var rule := PlainRule(args[1], args[2], pending);
        GotBody(RewriteRule(if |args| > 3 then WithFlags(rule, args[3]) else rule))
      case NameRedirection(kind) =>
        GotBody(Redirection(kind, Alias(args[1], args[2], IsPermanent(kind, args))))
      case NameHeader => HeaderOf(args)
      case NameExpiresByType => GotBody(ExpiresByType(args[1], args[2]))
      case NameErrorDocument =>
        GotBody(OnError(ErrorDocument(match ParseNumber(args[1]) case None => -1 case Some(n) => n, args[2])))
      case _ => BadArguments
  }

  /** `htaccess_push_directive` for everything but conditions: the record is filled in kind by kind. */
  method PushDirective(name: Name, args: seq<Text>, pending: seq<Cond>) returns (r: BodyResult)
    ensures r == BodyOf(name, args, pending)
  {
    hide WithFlags, Is, StartsWithNoCase, Joined, ParseNumber;
    if ReadsArgumentUnchecked(name) {
      r := PushSimple(name, args);
      return;
    }
    if |args| < 3 {
      return BadArguments;
    }
    match name {
      case NameRewriteRule =>
        var rule := PlainRule(args[1], args[2], pending);
        if |args| > 3 {
          rule := ParseRuleFlags(args[3], rule);
        }
        return GotBody(RewriteRule(rule));
      case NameRedirection(kind) =>
        var permanent := kind == RedirectPermanent || kind == RedirectMatch;
        if kind == Redirect && |args| > 3 && |args[3]| >= 3 && args[3][..3] == Ascii("301") {
          permanent := true;
        }
        return GotBody(Redirection(kind, Alias(args[1], args[2], permanent)));
      case NameHeader =>
        var offset, always := 1, false;
        if Is(args[1], Ascii("always")) {
          always := true;
          offset := 2;
        }
        if |args| <= offset + 1 {
          return BadArguments;
        }
        var value: Text := [];
        if |args| > offset + 2 {
          value := args[offset + 2];
        }
        return GotBody(SetHeader(Header(args[offset], args[offset + 1], value, always)));
      case NameExpiresByType =>
        return GotBody(ExpiresByType(args[1], args[2]));
      case NameErrorDocument =>
        var code := ParseNumber(args[1]);
        return GotBody(OnError(ErrorDocument(if code.None? then -1 else code.value, args[2])));
      case _ =>
        return BadArguments;
    }
  }

  /** The directives that read their first argument without counting. */
  method PushSimple(name: Name, args: seq<Text>) returns (r: BodyResult)
    requires ReadsArgumentUnchecked(name)
    ensures forall pending :: BodyOf(name, args, pending) == r
  {
    hide Is, StartsWithNoCase;
    if |args| < 2 {
      return Unspecified;
    }
    match name {
      case NameRewriteEngine => return GotBody(RewriteEngine(Is(args[1], Ascii("on"))));
      case NameRewriteBase => return GotBody(RewriteBase(args[1]));
      case NameSetting(setting) => return GotBody(Set(setting, args[1]));
      case NameRequire =>
        if |args| > 2 {
          var joined := JoinArgs(args, 1);
          return GotBody(Require(joined.value));
        }
        return GotBody(Require(args[1]));
      case NameAllow => return GotBody(Allow(args[1]));
      case NameDeny => return GotBody(Deny(args[1]));
      case NameExpiresActive => return GotBody(ExpiresActive(Is(args[1], Ascii("on"))));
      case NameOptions =>
        var forbidden := StartsWithNoCase(args[1], Ascii("-Indexes"));
        return GotBody(Indexes(forbidden));
    }
  }

  // ----- blocks -----

  predicate IsTag(word: Text) {
    |word| >= 2 && word[0] == LESS && word[|word| - 1] == GREATER
  }

  predicate IsClosing(word: Text) {
    |word| >= 3 && word[1] == SLASH
  }

  /** `htaccess_block_enabled`. */
  predicate BlockEnabled(block: Text, inRewrite: bool, inFiles: bool) {
    if |block| < 2 || block[0] != LESS then true
    else
      var word := block[1..];
      if StartsWithNoCase(word, Ascii("IfModule")) then
        var rest := word[SkipBlanks(word, 8)..];
        if |rest| >= 14 && StartsWithNoCase(rest, Ascii("mod_rewrite.c")) then inRewrite else true
      else if StartsWithNoCase(word, Ascii("Files")) || StartsWithNoCase(word, Ascii("FilesMatch")) then inFiles
      else true
  }

  /** The quoted pattern of a `<FilesMatch "...">` tag; empty for every other tag. */
  function FilesPattern(block: Text): Text {
    if |block| < 12 || !StartsWithNoCase(block[1..], Ascii("FilesMatch")) then []
    else
      var inner := block[..|block| - 1];
      var p := SkipBlanks(inner, 11);
      if p == |inner| || inner[p] != QUOTE then []
      else inner[p + 1..IndexFrom(inner, p + 1, QUOTE)]
  }

  /** `htaccess_parse_files_match`. */
  method ParseFilesMatch(block: Text) returns (pattern: Text)
    ensures pattern == FilesPattern(block)
  {
    if |block| < 12 || !StartsWithNoCase(block[1..], Ascii("FilesMatch")) {
      return [];
    }
    var inner := block[..|block| - 1];
    var p := SkipSpace(inner, 11);
    if p >= |inner| || inner[p] != QUOTE {
      return [];
    }
    var start := p + 1;
    p := start;
    while p < |inner| && inner[p] != QUOTE
      invariant start <= p <= |inner| && IndexFrom(inner, p, QUOTE) == IndexFrom(inner, start, QUOTE)
    {
      p := p + 1;
    }
    return inner[start..p];
  }

  // ----- the meaning of a file -----

  /** The patterns of the open blocks, innermost last; the directives so far; the conditions awaiting a rule. */
  datatype ParserState = ParserState(stack: seq<Text>, directives: seq<Directive>, pending: seq<Cond>)

  const INITIAL_STATE: ParserState := ParserState([], [], [])

  datatype Step = Next(s: ParserState) | Rejected | Undefined

  /** A block opens: recorded unless 15 are open already. */
  function Opened(stack: seq<Text>, tag: Text): seq<Text> {
    if |stack| < MAX_DEPTH then stack + [FilesPattern(tag)] else stack
  }

  function Closed(stack: seq<Text>): seq<Text> {
    if stack == [] then [] else stack[..|stack| - 1]
  }

  function Innermost(stack: seq<Text>): Text {
    if stack == [] then [] else stack[|stack| - 1]
  }

  function DirectiveStep(s: ParserState, name: Name, args: seq<Text>): Step {
    if name == NameRewriteCond then
      match CondOf(args)
      case None => Rejected
      case Some(cond) => Next(s.(pending := s.pending + [cond]))
    else
      match BodyOf(name, args, s.pending)
      case Unspecified => Undefined
      case BadArguments => Rejected
      case GotBody(body) =>
        Next(s.(directives := s.directives + [Directive(Innermost(s.stack), body)],
                pending := if body.RewriteRule? then [] else s.pending))
  }

  function LineStep(s: ParserState, tokens: seq<Text>): Step {
    if tokens == [] then Next(s)
    else if IsTag(tokens[0]) then
      Next(s.(stack := if IsClosing(tokens[0]) then Closed(s.stack) else Opened(s.stack, tokens[0])))
    else
      match FindName(NAMES, tokens[0])
      case None => Next(s)
      case Some(name) => DirectiveStep(s, name, tokens)
  }

  datatype Parse = Parsed(file: ParsedFile) | Unparsable | Unpredictable

  function ParseFrom(t: Text, p: nat, s: ParserState): Parse
    requires p <= |t|
    decreases |t| - p
  {
    if p == |t| then Parsed(ParsedFile(s.directives))
    else
      match LexLine(t, p)
      case BrokenLine => Unparsable
      case Line(tokens, next) =>
        match LineStep(s, tokens)
        case Rejected => Unparsable
        case Undefined => Unpredictable
        case Next(s') => ParseFrom(t, next, s')
  }

  function ParseText(t: Text): Parse {
    ParseFrom(t, 0, INITIAL_STATE)
  }

  // ----- the parsing loop -----

  lemma EveryBlockIsEnabled(block: Text)
    ensures BlockEnabled(block, true, true)
  {
  }

  /** The fixed arrays of the loop hold exactly the stack of open blocks. */
  ghost predicate Holds(enabled: array<bool>, filesMatch: array<Text>, depth: nat, stack: seq<Text>)
    reads enabled, filesMatch
  {
    && enabled.Length == filesMatch.Length == MAX_DEPTH + 1
    && depth == |stack| <= MAX_DEPTH
    && (forall k :: 0 <= k <= depth ==> enabled[k])
    && filesMatch[0] == []
    && (forall k :: 1 <= k <= depth ==> filesMatch[k] == stack[k - 1])
  }

  method OpenBlock(enabled: array<bool>, filesMatch: array<Text>, depth: nat, tag: Text, ghost stack: seq<Text>)
    returns (depth': nat)
    requires Holds(enabled, filesMatch, depth, stack)
    modifies enabled, filesMatch
    ensures Holds(enabled, filesMatch, depth', Opened(stack, tag))
  {
    depth' := depth;
    if depth < MAX_DEPTH {
      depth' := depth + 1;
      EveryBlockIsEnabled(tag);
      enabled[depth'] := BlockEnabled(tag, true, true) && enabled[depth' - 1];
      var pattern := ParseFilesMatch(tag);
      filesMatch[depth'] := pattern;
    }
  }

  method CloseBlock(enabled: array<bool>, filesMatch: array<Text>, depth: nat, ghost stack: seq<Text>)
    returns (depth': nat)
    requires Holds(enabled, filesMatch, depth, stack)
    ensures Holds(enabled, filesMatch, depth', Closed(stack))
  {
    depth' := if depth > 0 then depth - 1 else depth;
  }

  method ProcessDirective(s: ParserState, filesMatch: Text, tokens: seq<Text>) returns (step: Step)
    requires tokens != [] && !IsTag(tokens[0])
    requires filesMatch == Innermost(s.stack)
    ensures step == LineStep(s, tokens)
    ensures step.Next? ==> step.s.stack == s.stack
  {
    hide FindName, BodyOf, CondOf;
    var name := DirectiveId(tokens[0]);
    if name.None? {
      return Next(s);
    }
    if name.value == NameRewriteCond {
      var cond := ParseRewriteCond(tokens);
      if cond.None? {
        return Rejected;
      }
      return Next(s.(pending := s.pending + [cond.value]));
    }
    var r := PushDirective(name.value, tokens, s.pending);
    match r {
      case Unspecified => return Undefined;
      case BadArguments => return Rejected;
      case GotBody(body) =>
        var pending := if body.RewriteRule? then [] else s.pending;
        return Next(s.(directives := s.directives + [Directive(filesMatch, body)], pending := pending));
    }
  }

  /** `htaccess_parse`. */
  method ParseBuffer(t: Text) returns (r: Parse)
    ensures r == ParseText(t)
  {
    hide LexLine, IsTag, IsClosing, Opened, Closed, DirectiveStep, FindName;
    var enabled := new bool[MAX_DEPTH + 1];
    var filesMatch := new Text[MAX_DEPTH + 1];
    enabled[0] := true;
    filesMatch[0] := [];
    var p: nat, depth: nat := 0, 0;
    var s := INITIAL_STATE;
    while p < |t|
      invariant p <= |t|
      invariant Holds(enabled, filesMatch, depth, s.stack)
      invariant ParseText(t) == ParseFrom(t, p, s)
      decreases |t| - p
    {
      var line := ReadLine(t, p);
      if line.BrokenLine? {
        return Unparsable;
      }
      var tokens := line.tokens;
      p := line.next;
      if |tokens| == 0 {
        continue;
      }
      if IsTag(tokens[0]) {
        if IsClosing(tokens[0]) {
          depth := CloseBlock(enabled, filesMatch, depth, s.stack);
          s := s.(stack := Closed(s.stack));
        } else {
          depth := OpenBlock(enabled, filesMatch, depth, tokens[0], s.stack);
          s := s.(stack := Opened(s.stack, tokens[0]));
        }
        continue;
      }
      if !enabled[depth] {
        continue;
      }
      var step := ProcessDirective(s, filesMatch[depth], tokens);
      match step {
        case Rejected => return Unparsable;
        case Undefined => return Unpredictable;
        case Next(s') => s := s';
      }
    }
    return Parsed(ParsedFile(s.directives));
  }
}
