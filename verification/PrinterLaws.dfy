/** Printing whole files and parsing them back. */
module PrinterLaws {
  import opened Options
  import opened Bytes
  import opened Directives
  import opened Lexer
  import opened LexerLaws
  import opened RuleFlags
  import opened Parser
  import opened ParserLaws

  // ----- words -----

  function Spelling(name: Name): string {
    match name
    case NameRewriteEngine => "RewriteEngine"
    case NameRewriteBase => "RewriteBase"
    case NameRewriteCond => "RewriteCond"
    case NameRewriteRule => "RewriteRule"
    case NameRedirection(Redirect) => "Redirect"
    case NameRedirection(RedirectMatch) => "RedirectMatch"
    case NameRedirection(RedirectPermanent) => "RedirectPermanent"
    case NameRedirection(RedirectTemp) => "RedirectTemp"
    case NameSetting(AuthType) => "AuthType"
    case NameSetting(AuthName) => "AuthName"
    case NameSetting(AuthUserFile) => "AuthUserFile"
    case NameRequire => "Require"
    case NameSetting(Order) => "Order"
    case NameAllow => "Allow"
    case NameDeny => "Deny"
    case NameHeader => "Header"
    case NameExpiresActive => "ExpiresActive"
    case NameExpiresByType => "ExpiresByType"
    case NameSetting(ExpiresDefault) => "ExpiresDefault"
    case NameErrorDocument => "ErrorDocument"
    case NameOptions => "Options"
    case NameSetting(DirectoryIndex) => "DirectoryIndex"
  }

  /** The position of a name in the table. */
  function Position(name: Name): nat {
    match name
    case NameRewriteEngine => 0
    case NameRewriteBase => 1
    case NameRewriteCond => 2
    case NameRewriteRule => 3
    case NameRedirection(Redirect) => 4
    case NameRedirection(RedirectMatch) => 5
    case NameRedirection(RedirectPermanent) => 6
    case NameRedirection(RedirectTemp) => 7
    case NameSetting(AuthType) => 8
    case NameSetting(AuthName) => 9
    case NameSetting(AuthUserFile) => 10
    case NameRequire => 11
    case NameSetting(Order) => 12
    case NameAllow => 13
    case NameDeny => 14
    case NameHeader => 15
    case NameExpiresActive => 16
    case NameExpiresByType => 17
    case NameSetting(ExpiresDefault) => 18
    case NameErrorDocument => 19
    case NameOptions => 20
    case NameSetting(DirectoryIndex) => 21
  }

  /** A letter, in lower case, at which a word differs from the others of its length. */
  function Letter(name: Name): char {
    match name
    case NameRewriteEngine => 'e'
    case NameRewriteBase => 'b'
    case NameRewriteCond => 'c'
    case NameRewriteRule => 'r'
    case NameRedirection(Redirect) => 'r'
    case NameRedirection(RedirectMatch) => 't'
    case NameRedirection(RedirectPermanent) => 'r'
    case NameRedirection(RedirectTemp) => 'r'
    case NameSetting(AuthType) => 't'
    case NameSetting(AuthName) => 'n'
    case NameSetting(AuthUserFile) => 'a'
    case NameRequire => 'r'
    case NameSetting(Order) => 'o'
    case NameAllow => 'a'
    case NameDeny => 'd'
    case NameHeader => 'h'
    case NameExpiresActive => 'a'
    case NameExpiresByType => 'b'
    case NameSetting(ExpiresDefault) => 'e'
    case NameErrorDocument => 'c'
    case NameOptions => 'o'
    case NameSetting(DirectoryIndex) => 'd'
  }

  function MarkPosition(length: nat): nat {
    if length == 11 || length == 13 then 7 else if length == 8 then 4 else 0
  }

  /** The word of a directive. */
  function WordOf(name: Name): Text {
    Ascii(Spelling(name))
  }

  lemma RowIsSpelt(k: nat)
    requires k < |NAMES|
    ensures NAMES[k].0 == Spelling(NAMES[k].1)
  {
  }

  lemma RowIsPosition(k: nat)
    requires k < |NAMES|
    ensures Position(NAMES[k].1) == k
  {
  }

  lemma PositionIsInTable(name: Name)
    ensures Position(name) < |NAMES| && NAMES[Position(name)].1 == name
  {
  }

  predicate IsLetter(c: char) {
    'A' <= c <= 'Z' || 'a' <= c <= 'z'
  }

  /** `c` is a lower-case letter and `s` has it at position `k`, in either case. */
  predicate HasLetter(s: string, k: nat, c: char) {
    k < |s| && 'a' <= c <= 'z' && (s[k] == c || ('A' <= s[k] <= 'Z' && s[k] as int + 0x20 == c as int))
  }

  lemma LetterOf(name: Name)
    ensures HasLetter(Spelling(name), MarkPosition(|Spelling(name)|), Letter(name))
  {
  }

  lemma LettersDiffer(a: Name, b: Name)
    requires a != b && |Spelling(a)| == |Spelling(b)|
    ensures Letter(a) != Letter(b)
  {
  }

  lemma LettersTellApart(s: string, t: string, k: nat, c: char, d: char)
    requires |s| == |t| && HasLetter(s, k, c) && HasLetter(t, k, d) && c != d
    ensures !Is(Ascii(s), Ascii(t))
  {
    var a, b := Ascii(s), Ascii(t);
    assert a[..|b|] == a;
    assert Fold(a)[k] != Fold(b)[k];
  }

  /** No two words are the same but for case. */
  lemma WordsDiffer(a: Name, b: Name)
    requires a != b
    ensures !Is(WordOf(a), WordOf(b))
  {
    hide Spelling, Letter, HasLetter, MarkPosition;
    if |Spelling(a)| == |Spelling(b)| {
      LetterOf(a);
      LetterOf(b);
      LettersDiffer(a, b);
      LettersTellApart(Spelling(a), Spelling(b), MarkPosition(|Spelling(a)|), Letter(a), Letter(b));
    }
  }

  lemma FindNameStep(table: seq<(string, Name)>, k: nat, word: Text)
    requires k < |table|
    ensures FindName(table[k..], word) ==
            if Is(word, Ascii(table[k].0)) then Some(table[k].1) else FindName(table[k + 1..], word)
  {
    hide Is, Ascii;
    assert table[k..][1..] == table[k + 1..];
  }

  lemma {:induction false} FoundAt(name: Name, k: nat)
    requires k <= Position(name)
    ensures Position(name) < |NAMES| && FindName(NAMES[k..], WordOf(name)) == Some(name)
    decreases Position(name) - k
  {
    hide Is, Spelling, Position, FindName, Ascii;
    PositionIsInTable(name);
    RowIsSpelt(k);
    RowIsPosition(k);
    FindNameStep(NAMES, k, WordOf(name));
    if k == Position(name) {
      IsItself(WordOf(name));
    } else {
      WordsDiffer(name, NAMES[k].1);
      FoundAt(name, k + 1);
    }
  }

  lemma IsItself(w: Text)
    ensures Is(w, w)
  {
    assert w[..|w|] == w;
  }

  /** Every word of the table is found as its own name. */
  lemma WordIsFound(name: Name)
    ensures FindName(NAMES, WordOf(name)) == Some(name)
  {
    hide WordOf, FindName, Position;
    FoundAt(name, 0);
    assert NAMES[0..] == NAMES;
  }

  predicate AllLetters(s: string) {
    forall c :: c in s ==> IsLetter(c)
  }

  lemma {:induction false} LettersAreQuotable(s: string)
    requires AllLetters(s)
    ensures QuotedBody(Ascii(s)) && (s != [] ==> Ascii(s)[0] != LESS)
    decreases |s|
  {
    if s == [] {
    } else {
      assert Ascii(s)[1..] == Ascii(s[1..]) && s[0] in s;
      LettersAreQuotable(s[1..]);
    }
  }

  lemma SettingIsLetters(setting: Setting)
    ensures AllLetters(Spelling(NameSetting(setting))) && Spelling(NameSetting(setting)) != []
  {
  }

  lemma KindIsLetters(kind: AliasKind)
    ensures AllLetters(Spelling(NameRedirection(kind))) && Spelling(NameRedirection(kind)) != []
  {
  }

  lemma SpellingIsLetters(name: Name)
    ensures AllLetters(Spelling(name)) && Spelling(name) != []
  {
    match name
    case NameSetting(setting) => SettingIsLetters(setting);
    case NameRedirection(kind) => KindIsLetters(kind);
    case _ =>
  }

  /** A word can be written between quotes, and is no tag. */
  lemma WordIsQuotable(name: Name)
    ensures QuotedBody(WordOf(name)) && !IsTag(WordOf(name))
  {
    hide Spelling, AllLetters;
    SpellingIsLetters(name);
    LettersAreQuotable(Spelling(name));
  }

  // ----- lines -----

  function NameOf(body: Body): Name {
    match body
    case RewriteEngine(_) => NameRewriteEngine
    case RewriteBase(_) => NameRewriteBase
    case RewriteRule(_) => NameRewriteRule
    case Redirection(kind, _) => NameRedirection(kind)
    case Set(setting, _) => NameSetting(setting)
    case Require(_) => NameRequire
    case Allow(_) => NameAllow
    case Deny(_) => NameDeny
    case SetHeader(_) => NameHeader
    case ExpiresActive(_) => NameExpiresActive
    case ExpiresByType(_, _) => NameExpiresByType
    case OnError(_) => NameErrorDocument
    case Indexes(_) => NameOptions
  }

  function OnOff(on: bool): Text {
    Ascii(if on then "on" else "off")
  }

  function EntryFlags(entries: seq<Text>): seq<Flag> {
    if entries == [] then [] else [SetEnv(entries[0])] + EntryFlags(entries[1..])
  }

  /** Those of some flags that a rule has. */
  function Present(candidates: seq<Flag>, rule: Rule): seq<Flag> {
    if candidates == [] then []
    else (if HasFlag(rule, candidates[0]) then [candidates[0]] else []) + Present(candidates[1..], rule)
  }

  /** The flags a rule can have besides environment entries. */
  function Words(rule: Rule): seq<Flag> {
    [Last, End, NoCase, Chain, Qsa, RedirectTo(rule.redirectCode)]
  }

  /** The flags of a rule, in one order of many. */
  function FlagsOf(rule: Rule): seq<Flag> {
    Present(Words(rule), rule) + EntryFlags(rule.envVars)
  }

  function ArgsOf(body: Body): seq<Text> {
    match body
    case RewriteEngine(on) => [OnOff(on)]
    case RewriteBase(base) => [base]
    case RewriteRule(rule) => [rule.pattern, rule.substitution, PrintFlags(FlagsOf(rule))]
    case Redirection(kind, alias) =>
      [alias.from, alias.to] + if kind == Redirect && alias.permanent then [Ascii("301")] else []
    case Set(_, value) => [value]
    case Require(requirement) => [requirement]
    case Allow(from) => [from]
    case Deny(from) => [from]
    case SetHeader(h) => (if h.always then [Ascii("always")] else []) + [h.action, h.name, h.value]
    case ExpiresActive(active) => [OnOff(active)]
    case ExpiresByType(mime, expiry) => [mime, expiry]
    case OnError(document) => [if document.code < 0 then [DASH] else PrintNumber(document.code), document.uri]
    case Indexes(forbidden) => [Ascii(if forbidden then "-Indexes" else "+Indexes")]
  }

  function LineOf(body: Body): seq<Text> {
    [WordOf(NameOf(body))] + ArgsOf(body)
  }

  function CondArgs(c: Cond): seq<Text> {
    [c.test] + if c.value.None? then [] else [c.value.value] + if c.orNext then [Ascii("OR")] else []
  }

  function CondLines(conditions: seq<Cond>): seq<seq<Text>> {
    if conditions == [] then []
    else [[WordOf(NameRewriteCond)] + CondArgs(conditions[0])] + CondLines(conditions[1..])
  }

  function OpenTag(pattern: Text): Text {
    [LESS] + Ascii("FilesMatch") + [SPACE, QUOTE] + pattern + [QUOTE, GREATER]
  }

  function CloseTag(): Text {
    Ascii("</FilesMatch>")
  }

  /** A directive and its conditions, outside every block. */
  function BodyLines(body: Body): seq<seq<Text>> {
    (if body.RewriteRule? then CondLines(body.rule.conditions) else []) + [LineOf(body)]
  }

  /** A directive, in a block of its own if it needs one. */
  function DirectiveLines(d: Directive): seq<seq<Text>> {
    if d.filesMatch == [] then BodyLines(d.body)
    else [[OpenTag(d.filesMatch)]] + BodyLines(d.body) + [[CloseTag()]]
  }

  function SourceOf(ds: seq<Directive>): seq<seq<Text>> {
    if ds == [] then [] else DirectiveLines(ds[0]) + SourceOf(ds[1..])
  }

  // ----- what a file can say -----

  predicate AllQuotable(texts: seq<Text>) {
    forall t :: t in texts ==> QuotedBody(t)
  }

  predicate SayableCond(c: Cond) {
    && AllQuotable(CondArgs(c))
    && (c.value.None? ==> !c.orNext)
    && !IsUnclosed(c.test)
  }

  predicate SayableRule(rule: Rule) {
    && !rule.chainIn
    && (if rule.redirect then rule.redirectCode <= MAX_INT else rule.redirectCode == 0)
    && (forall e :: e in rule.envVars ==> Expressible(SetEnv(e)))
    && (forall c :: c in rule.conditions ==> SayableCond(c))
  }

  /** The fields fit together as a line can make them, and every argument can be written between quotes. */
  predicate Sayable(body: Body) {
    && AllQuotable(ArgsOf(body))
    && match body
       case RewriteRule(rule) => SayableRule(rule)
       case Redirection(kind, alias) =>
         (kind == RedirectTemp ==> !alias.permanent)
         && (kind == RedirectMatch || kind == RedirectPermanent ==> alias.permanent)
       case SetHeader(h) => h.always || !Is(h.action, Ascii("always"))
       case OnError(document) => -1 <= document.code <= MAX_INT
       case _ => true
  }

  predicate SayableDirective(d: Directive) {
    Sayable(d.body) && QUOTE !in d.filesMatch && GREATER !in d.filesMatch
  }

  // ----- reading lines back -----

  lemma {:induction false} EntriesOfConcat(a: seq<Flag>, b: seq<Flag>)
    ensures Entries(a + b) == Entries(a) + Entries(b)
    decreases |a|
  {
    hide Entry;
    if a == [] {
      assert a + b == b;
    } else {
      assert (a + b)[1..] == a[1..] + b;
      EntriesOfConcat(a[1..], b);
    }
  }

  lemma {:induction false} EntriesOfEntryFlags(entries: seq<Text>)
    ensures Entries(EntryFlags(entries)) == entries
    ensures forall f :: f in EntryFlags(entries) ==> f.SetEnv? && f.entry in entries
    decreases |entries|
  {
    if entries == [] {
    } else {
      EntriesOfEntryFlags(entries[1..]);
    }
  }

  lemma {:induction false} PresentAreIn(candidates: seq<Flag>, rule: Rule, f: Flag)
    ensures f in Present(candidates, rule) <==> f in candidates && HasFlag(rule, f)
    decreases |candidates|
  {
    hide HasFlag;
    if candidates == [] {
    } else {
      PresentAreIn(candidates[1..], rule, f);
      assert f in candidates <==> f == candidates[0] || f in candidates[1..];
    }
  }

  lemma {:induction false} NoEntriesPresent(candidates: seq<Flag>, rule: Rule)
    requires forall f :: f in candidates ==> !f.SetEnv?
    ensures Entries(Present(candidates, rule)) == []
    decreases |candidates|
  {
    hide HasFlag, Entries;
    if candidates == [] {
      NoneListed();
    } else {
      NoEntriesPresent(candidates[1..], rule);
      if HasFlag(rule, candidates[0]) {
        EntriesOfConcat([candidates[0]], Present(candidates[1..], rule));
        OneWordListed(candidates[0]);
      } else {
        assert Present(candidates, rule) == Present(candidates[1..], rule);
      }
    }
  }

  lemma NoneListed()
    ensures Entries([]) == []
  {
  }

  lemma OneWordListed(f: Flag)
    requires !f.SetEnv?
    ensures Entries([f]) == []
  {
    assert [f][1..] == [];
  }

  lemma WordsAre(rule: Rule, f: Flag)
    ensures f in Words(rule) <==> (!f.SetEnv? && (f.RedirectTo? ==> f.code == rule.redirectCode))
  {
    var ws := Words(rule);
    assert ws[0] == Last && ws[1] == End && ws[2] == NoCase && ws[3] == Chain && ws[4] == Qsa;
    assert ws[5] == RedirectTo(rule.redirectCode);
  }

  lemma FlagIsListed(rule: Rule, f: Flag)
    ensures f in FlagsOf(rule) <==> if f.SetEnv? then f in EntryFlags(rule.envVars)
                                    else HasFlag(rule, f) && (f.RedirectTo? ==> f.code == rule.redirectCode)
  {
    hide Words, Present, EntryFlags, HasFlag, Entries;
    PresentAreIn(Words(rule), rule, f);
    WordsAre(rule, f);
    EntriesOfEntryFlags(rule.envVars);
  }

  lemma FlagsAreListed(rule: Rule)
    requires SayableRule(rule)
    ensures Lists(FlagsOf(rule), rule)
    ensures forall k :: 0 <= k < |FlagsOf(rule)| ==> Expressible(FlagsOf(rule)[k])
  {
    hide Words, Present, EntryFlags, Entries, FlagsOf;
    forall f ensures f in FlagsOf(rule) <==> if f.SetEnv? then f in EntryFlags(rule.envVars)
                                    else HasFlag(rule, f) && (f.RedirectTo? ==> f.code == rule.redirectCode)
    {
      FlagIsListed(rule, f);
    }
    EntriesOfEntryFlags(rule.envVars);
    EntriesOfFlags(rule);
    forall k | 0 <= k < |FlagsOf(rule)| ensures Expressible(FlagsOf(rule)[k]) {
      assert FlagsOf(rule)[k] in FlagsOf(rule);
    }
  }

  lemma EntriesOfFlags(rule: Rule)
    ensures Entries(FlagsOf(rule)) == rule.envVars
  {
    hide Words, Present, EntryFlags, Entries;
    forall f | f in Words(rule) ensures !f.SetEnv? {
      WordsAre(rule, f);
    }
    NoEntriesPresent(Words(rule), rule);
    EntriesOfConcat(Present(Words(rule), rule), EntryFlags(rule.envVars));
    EntriesOfEntryFlags(rule.envVars);
  }

  /** A rule's line gives the rule back, with the conditions that are pending. */
  lemma RuleIsRead(rule: Rule)
    requires SayableRule(rule)
    ensures BodyOf(NameRewriteRule, LineOf(RewriteRule(rule)), rule.conditions) == GotBody(RewriteRule(rule))
  {
    hide WithFlags, FlagsOf, PrintFlags, Lists, WordOf, Expressible;
    FlagsAreListed(rule);
    FlagListRoundTrip(rule, FlagsOf(rule));
    assert PlainRule(rule.pattern, rule.substitution, rule.conditions) == Unflagged(rule);
  }

  lemma OnOffIsRead(on: bool)
    ensures IsOn(OnOff(on)) <==> on
  {
    assert Ascii("on")[..2] == Ascii("on");
  }

  lemma NumberIsRead(code: int)
    requires -1 <= code <= MAX_INT
    ensures var t := if code < 0 then [DASH] else PrintNumber(code);
            code == match ParseNumber(t) case None => -1 case Some(n) => n
  {
    hide PrintNumber, Decimal;
    if code < 0 {
      assert !IsDigit([DASH][0]);
    } else {
      NumberRoundTrip(code);
    }
  }

  lemma IndexesIsRead(forbidden: bool)
    ensures StartsWithNoCase(Ascii(if forbidden then "-Indexes" else "+Indexes"), Ascii("-Indexes")) <==> forbidden
  {
    var t := Ascii(if forbidden then "-Indexes" else "+Indexes");
    assert t[..8] == t;
    assert !forbidden ==> Fold(t)[0] != Fold(Ascii("-Indexes"))[0];
  }

  lemma PermanentIsRead(kind: AliasKind, alias: Alias)
    requires Sayable(Redirection(kind, alias))
    ensures IsPermanent(kind, LineOf(Redirection(kind, alias))) <==> alias.permanent
  {
    hide WordOf;
  }

  lemma HeaderIsRead(h: Header)
    requires Sayable(SetHeader(h))
    ensures HeaderOf(LineOf(SetHeader(h))) == GotBody(SetHeader(h))
  {
    hide WordOf, Is;
    IsItself(Ascii("always"));
  }

  /** Every other directive's line gives the directive back. */
  lemma BodyIsRead(body: Body, pending: seq<Cond>)
    requires Sayable(body) && (body.RewriteRule? ==> pending == body.rule.conditions)
    ensures BodyOf(NameOf(body), LineOf(body), pending) == GotBody(body)
  {
    hide WordOf, Is, IsOn, StartsWithNoCase, IsPermanent, HeaderOf, ParseNumber;
    hide PrintNumber, WithFlags, PrintFlags, OnOff;
    match body
    case RewriteRule(rule) => RuleIsRead(rule);
    case RewriteEngine(on) => OnOffIsRead(on);
    case ExpiresActive(on) => OnOffIsRead(on);
    case Redirection(kind, alias) => PermanentIsRead(kind, alias);
    case SetHeader(h) => HeaderIsRead(h);
    case OnError(document) => NumberIsRead(document.code);
    case Indexes(forbidden) => IndexesIsRead(forbidden);
    case _ =>
  }

  lemma CondIsRead(c: Cond)
    requires SayableCond(c)
    ensures CondOf([WordOf(NameRewriteCond)] + CondArgs(c)) == Some(c)
  {
    hide WordOf;
    assert OrFlag(Ascii("OR")) by {
      assert Ascii("OR")[..2] == Ascii("OR");
    }
  }

  // ----- reading directives back -----

  /** A line that starts with a word is neither empty nor a tag, and is a line of that name. */
  lemma WordStarts(name: Name, args: seq<Text>)
    ensures var line := [WordOf(name)] + args;
            line != [] && line[0] == WordOf(name) && !IsTag(line[0]) && FindName(NAMES, line[0]) == Some(name)
  {
    hide WordOf, IsTag, FindName;
    WordIsQuotable(name);
    WordIsFound(name);
  }

  lemma CondStep(s: ParserState, c: Cond)
    requires SayableCond(c)
    ensures LineStep(s, [WordOf(NameRewriteCond)] + CondArgs(c)) == Next(s.(pending := s.pending + [c]))
  {
    hide WordOf, IsTag, FindName, CondOf, CondArgs, SayableCond;
    WordStarts(NameRewriteCond, CondArgs(c));
    CondIsRead(c);
  }

  lemma BodyStep(s: ParserState, body: Body)
    requires Sayable(body) && s.pending == if body.RewriteRule? then body.rule.conditions else []
    ensures LineStep(s, LineOf(body))
         == Next(s.(directives := s.directives + [Directive(Innermost(s.stack), body)], pending := []))
  {
    hide WordOf, IsTag, FindName, BodyOf, ArgsOf, Sayable;
    WordStarts(NameOf(body), ArgsOf(body));
    BodyIsRead(body, s.pending);
    assert NameOf(body) != NameRewriteCond;
  }

  lemma {:induction false} CondLinesRead(s: ParserState, conditions: seq<Cond>)
    requires forall c :: c in conditions ==> SayableCond(c)
    ensures Continue(Next(s), CondLines(conditions)) == Next(s.(pending := s.pending + conditions))
    decreases |conditions|
  {
    hide LineStep, WordOf, CondArgs, SayableCond;
    if conditions == [] {
      assert s.pending + [] == s.pending;
    } else {
      var c, rest := conditions[0], conditions[1..];
      CondStep(s, c);
      CondLinesRead(s.(pending := s.pending + [c]), rest);
      assert s.pending + [c] + rest == s.pending + conditions;
    }
  }

  lemma OneLine(step: Step, line: seq<Text>)
    requires step.Next?
    ensures Continue(step, [line]) == LineStep(step.s, line)
  {
    assert [line][1..] == [];
  }

  lemma BodyLinesRead(s: ParserState, body: Body)
    requires Sayable(body) && s.pending == []
    ensures Continue(Next(s), BodyLines(body))
         == Next(s.(directives := s.directives + [Directive(Innermost(s.stack), body)]))
  {
    hide LineStep, LineOf, Continue, CondLines, SayableCond, AllQuotable;
    var conditions := if body.RewriteRule? then body.rule.conditions else [];
    if body.RewriteRule? {
      CondLinesRead(s, conditions);
      assert [] + conditions == conditions;
    } else {
      NoMoreLines(Next(s));
    }
    var lines := if body.RewriteRule? then CondLines(conditions) else [];
    ContinueConcat(Next(s), lines, [LineOf(body)]);
    var s' := s.(pending := conditions);
    OneLine(Next(s'), LineOf(body));
    BodyStep(s', body);
  }

  lemma NoMoreLines(step: Step)
    ensures Continue(step, []) == step
  {
  }

  /** The tags around a directive in a block: the pattern comes back, and the closing tag closes. */
  lemma TagsAreRead(pattern: Text)
    requires QUOTE !in pattern && GREATER !in pattern
    ensures IsTag(OpenTag(pattern)) && !IsClosing(OpenTag(pattern)) && FilesPattern(OpenTag(pattern)) == pattern
    ensures Printable(Printed(Block, OpenTag(pattern)))
  {
    hide StartsWithNoCase;
    var word, tag, n := Ascii("FilesMatch"), OpenTag(pattern), |pattern|;
    var inner := tag[..|tag| - 1];
    assert |tag| == n + 15 && tag[1..][..10] == word;
    TagStarts(tag, word);
    assert tag[11] == SPACE && tag[12] == QUOTE && tag[13..13 + n] == pattern && tag[13 + n] == QUOTE;
    assert SkipBlanks(inner, 11) == 12;
    forall k | 13 <= k < 13 + n ensures inner[k] != QUOTE && tag[k] != GREATER {
      assert inner[k] == pattern[k - 13];
    }
    IndexFromIs(inner, 13, QUOTE, 13 + n);
    assert inner[13..13 + n] == pattern;
    forall k | 0 <= k < |tag| - 1 ensures tag[k] != GREATER {
      if 1 <= k < 11 {
        assert tag[k] == word[k - 1];
      }
    }
    IndexFromIs(tag, 0, GREATER, |tag| - 1);
  }

  lemma TagStarts(tag: Text, word: Text)
    requires |tag| > |word| && tag[1..][..|word|] == word
    ensures StartsWithNoCase(tag[1..], word)
  {
  }

  lemma CloseTagIsRead()
    ensures IsTag(CloseTag()) && IsClosing(CloseTag()) && Printable(Printed(Block, CloseTag()))
  {
    IndexFromIs(CloseTag(), 0, GREATER, 12);
  }

  /** Between directives no block is open and no condition pending. */
  predicate Between(s: ParserState) {
    s.stack == [] && s.pending == []
  }

  lemma DirectiveIsRead(s: ParserState, d: Directive)
    requires SayableDirective(d) && Between(s)
    ensures Continue(Next(s), DirectiveLines(d)) == Next(s.(directives := s.directives + [d]))
  {
    hide Sayable, BodyLines, Continue, OpenTag, CloseTag, FilesPattern, IsTag, IsClosing, LineStep;
    if d.filesMatch == [] {
      BodyLinesRead(s, d.body);
    } else {
      var open, close := [OpenTag(d.filesMatch)], [CloseTag()];
      var inside := s.(stack := [d.filesMatch]);
      TagsAreRead(d.filesMatch);
      CloseTagIsRead();
      BlockOpens(s, OpenTag(d.filesMatch));
      OneLine(Next(s), open);
      BodyLinesRead(inside, d.body);
      var after := inside.(directives := s.directives + [d]);
      BlockCloses(after, CloseTag());
      OneLine(Next(after), close);
      ContinueConcat(Next(s), [open], BodyLines(d.body));
      ContinueConcat(Next(s), [open] + BodyLines(d.body), [close]);
    }
  }

  lemma BlockOpens(s: ParserState, tag: Text)
    requires s.stack == [] && IsTag(tag) && !IsClosing(tag)
    ensures LineStep(s, [tag]) == Next(s.(stack := [FilesPattern(tag)]))
  {
    hide FilesPattern, IsTag, IsClosing;
  }

  lemma BlockCloses(s: ParserState, tag: Text)
    requires |s.stack| == 1 && IsTag(tag) && IsClosing(tag)
    ensures LineStep(s, [tag]) == Next(s.(stack := []))
  {
    hide IsTag, IsClosing;
  }

  lemma {:induction false} SourceIsRead(s: ParserState, ds: seq<Directive>)
    requires Between(s) && forall d :: d in ds ==> SayableDirective(d)
    ensures Continue(Next(s), SourceOf(ds)) == Next(s.(directives := s.directives + ds))
    decreases |ds|
  {
    hide SayableDirective, DirectiveLines, Continue;
    if ds == [] {
      NoMoreLines(Next(s));
      assert s.directives + [] == s.directives;
    } else {
      var s' := s.(directives := s.directives + [ds[0]]);
      DirectiveIsRead(s, ds[0]);
      SourceIsRead(s', ds[1..]);
      ContinueConcat(Next(s), DirectiveLines(ds[0]), SourceOf(ds[1..]));
      assert s.directives + [ds[0]] + ds[1..] == s.directives + ds;
    }
  }

  // ----- printing -----

  function QuotedTokens(line: seq<Text>): seq<Printed> {
    if line == [] then [] else [Printed(Quoted, line[0])] + QuotedTokens(line[1..])
  }

  /** A tag is printed as it is, every other token between quotes. */
  function PrintedLine(line: seq<Text>): seq<Printed> {
    if |line| == 1 && IsTag(line[0]) then [Printed(Block, line[0])] else QuotedTokens(line)
  }

  function PrintedLines(lines: seq<seq<Text>>): seq<seq<Printed>> {
    if lines == [] then [] else [PrintedLine(lines[0])] + PrintedLines(lines[1..])
  }

  /** The text of a file with the given directives. */
  function PrintDirectives(ds: seq<Directive>): Text {
    PrintFile(PrintedLines(SourceOf(ds)))
  }

  predicate Writable(line: seq<Text>) {
    && line != []
    && if |line| == 1 && IsTag(line[0]) then Printable(Printed(Block, line[0])) else AllQuotable(line)
  }

  lemma {:induction false} QuotedTokensAreRead(line: seq<Text>)
    requires AllQuotable(line)
    ensures AllPrintable(QuotedTokens(line)) && Texts(QuotedTokens(line)) == line
    decreases |line|
  {
    hide QuotedBody;
    if line == [] {
    } else {
      QuotedTokensAreRead(line[1..]);
    }
  }

  lemma WritableIsRead(line: seq<Text>)
    requires Writable(line)
    ensures PrintedLine(line) != [] && AllPrintable(PrintedLine(line)) && Texts(PrintedLine(line)) == line
  {
    hide IsTag, Printable, AllQuotable;
    if |line| == 1 && IsTag(line[0]) {
      var x := Printed(Block, line[0]);
      assert [x][1..] == [] && AllPrintable([]) && Texts([]) == [];
    } else {
      QuotedTokensAreRead(line);
    }
  }

  lemma {:induction false} WritablesAreRead(lines: seq<seq<Text>>)
    requires forall line :: line in lines ==> Writable(line)
    ensures Lines(PrintedLines(lines)) && AllTexts(PrintedLines(lines)) == lines
    decreases |lines|
  {
    hide Writable, PrintedLine, AllPrintable, Texts;
    if lines == [] {
    } else {
      WritableIsRead(lines[0]);
      WritablesAreRead(lines[1..]);
    }
  }

  lemma LineIsWritable(name: Name, args: seq<Text>)
    requires AllQuotable(args)
    ensures Writable([WordOf(name)] + args)
  {
    hide WordOf, IsTag, QuotedBody;
    WordIsQuotable(name);
  }

  lemma {:induction false} CondLinesAreWritable(conditions: seq<Cond>)
    requires forall c :: c in conditions ==> SayableCond(c)
    ensures forall line :: line in CondLines(conditions) ==> Writable(line)
    decreases |conditions|
  {
    hide Writable, WordOf, CondArgs, AllQuotable;
    if conditions == [] {
    } else {
      assert SayableCond(conditions[0]);
      LineIsWritable(NameRewriteCond, CondArgs(conditions[0]));
      CondLinesAreWritable(conditions[1..]);
    }
  }

  lemma BodyLinesAreWritable(body: Body)
    requires Sayable(body)
    ensures forall line :: line in BodyLines(body) ==> Writable(line)
  {
    hide Writable, WordOf, ArgsOf, AllQuotable, CondLines, SayableCond;
    LineIsWritable(NameOf(body), ArgsOf(body));
    if body.RewriteRule? {
      CondLinesAreWritable(body.rule.conditions);
    }
  }

  lemma DirectiveLinesAreWritable(d: Directive)
    requires SayableDirective(d)
    ensures forall line :: line in DirectiveLines(d) ==> Writable(line)
  {
    hide Sayable, BodyLines, OpenTag, CloseTag, IsTag, Printable;
    BodyLinesAreWritable(d.body);
    if d.filesMatch != [] {
      TagsAreRead(d.filesMatch);
      CloseTagIsRead();
      assert Writable([OpenTag(d.filesMatch)]) && Writable([CloseTag()]);
    }
  }

  lemma {:induction false} SourceIsWritable(ds: seq<Directive>)
    requires forall d :: d in ds ==> SayableDirective(d)
    ensures forall line :: line in SourceOf(ds) ==> Writable(line)
    decreases |ds|
  {
    hide Writable, DirectiveLines, SayableDirective;
    if ds == [] {
    } else {
      DirectiveLinesAreWritable(ds[0]);
      SourceIsWritable(ds[1..]);
    }
  }

  /**
   File round trip: directives of every kind, rules with their flags and conditions, each in its
   block, are printed to a text that parses to exactly these directives.
   */
  lemma DirectivesRoundTrip(ds: seq<Directive>)
    requires forall d :: d in ds ==> SayableDirective(d)
    ensures ParseText(PrintDirectives(ds)) == Parsed(ParsedFile(ds))
  {
    hide SayableDirective, Continue, After, ParseText, SourceOf, PrintFile, Lines, PrintedLines;
    SourceIsWritable(ds);
    WritablesAreRead(SourceOf(ds));
    ParsePrinted(PrintedLines(SourceOf(ds)));
    AfterIsContinue(SourceOf(ds));
    SourceIsRead(INITIAL_STATE, ds);
    assert [] + ds == ds;
  }
}
