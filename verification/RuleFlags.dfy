/** The bracketed flag list of a RewriteRule (`htaccess_parse_rule_flags`). */
module RuleFlags {
  import opened Options
  import opened Bytes
  import opened Directives

  const MAX_INT: nat := 0x7FFF_FFFF_FFFF_FFFF

  // ----- numbers -----

  predicate AllDigits(s: Text) {
    forall k :: 0 <= k < |s| ==> IsDigit(s[k])
  }

  predicate NoComma(s: Text) {
    forall k :: 0 <= k < |s| ==> s[k] != COMMA
  }

  function Decimal(s: Text): nat
    requires AllDigits(s)
  {
    if s == [] then 0
    else 10 * Decimal(s[..|s| - 1]) + (s[|s| - 1] - DIGIT_0) as nat
  }

  /** `ngx_atoi`: a non-empty string of digits whose value fits a signed 64-bit integer. */
  function ParseNumber(s: Text): Option<nat> {
    if s != [] && AllDigits(s) && Decimal(s) <= MAX_INT then Some(Decimal(s)) else None
  }

  function PrintNumber(n: nat): Text {
    (if n < 10 then [] else PrintNumber(n / 10)) + [DIGIT_0 + (n % 10) as Byte]
  }

  lemma DigitAppended(s: Text, d: Byte)
    requires AllDigits(s) && IsDigit(d)
    ensures AllDigits(s + [d]) && Decimal(s + [d]) == 10 * Decimal(s) + (d - DIGIT_0) as nat
  {
    assert (s + [d])[..|s|] == s;
  }

  lemma {:induction false} NumberRoundTrip(n: nat)
    ensures PrintNumber(n) != [] && AllDigits(PrintNumber(n)) && Decimal(PrintNumber(n)) == n
  {
    var d := DIGIT_0 + (n % 10) as Byte;
    if n < 10 {
      DigitAppended([], d);
    } else {
      NumberRoundTrip(n / 10);
      DigitAppended(PrintNumber(n / 10), d);
    }
  }

  // ----- one flag -----

  predicate Opens(b: Byte) {
    b == SPACE || b == OPEN_BRACKET
  }

  predicate Closes(b: Byte) {
    b == SPACE || b == CLOSE_BRACKET
  }

  function TrimStart(s: Text): Text {
    if s != [] && Opens(s[0]) then TrimStart(s[1..]) else s
  }

  function TrimEnd(s: Text): Text {
    if s != [] && Closes(s[|s| - 1]) then TrimEnd(s[..|s| - 1]) else s
  }

  function Trim(s: Text): Text {
    TrimEnd(TrimStart(s))
  }

  predicate Is(part: Text, name: Text) {
    |part| == |name| && StartsWithNoCase(part, name)
  }

  function RedirectCode(part: Text): nat {
    var eq := IndexFrom(part, 0, EQUALS);
    if eq == |part| then MOVED_TEMPORARILY else ParseNumber(part[eq + 1..]).GetOr(MOVED_TEMPORARILY)
  }

  datatype Flag = Last | End | NoCase | Chain | Qsa | RedirectTo(code: nat) | SetEnv(entry: Text)

  /** A part that is taken for a redirect: two bytes or more, the first of them R in any case. */
  predicate IsRedirect(part: Text) {
    |part| >= 2 && Lower(part[0]) == Lower(UPPER_R)
  }

  /** The flag one trimmed part of the list stands for; None for an unknown part. */
  function FlagOf(part: Text): Option<Flag> {
    if part == [UPPER_L] then Some(Last)
    else if Is(part, Ascii("END")) then Some(End)
    else if Is(part, Ascii("NC")) then Some(NoCase)
    else if IsRedirect(part) then Some(RedirectTo(RedirectCode(part)))
    else if part == [UPPER_C] then Some(Chain)
    else if Is(part, Ascii("QSA")) then Some(Qsa)
    else if StartsWithNoCase(part, Ascii("E=")) then Some(SetEnv(part[2..]))
    else None
  }

  function WithFlag(rule: Rule, f: Flag): Rule {
    match f
    case Last => rule.(last := true)
    case End => rule.(end := true)
    case NoCase => rule.(nocase := true)
    case Chain => rule.(chain := true)
    case Qsa => rule.(qsa := true)
    case RedirectTo(code) => rule.(redirect := true, redirectCode := code)
    case SetEnv(entry) => rule.(envVars := rule.envVars + [entry])
  }

  function WithPart(rule: Rule, part: Text): Rule {
    match FlagOf(part)
    case None => rule
    case Some(f) => WithFlag(rule, f)
  }

  /** The effect of a whole list: its comma-separated parts, trimmed, from left to right. */
  function WithFlags(rule: Rule, flags: Text): Rule
    decreases |flags|
  {
    var comma := IndexFrom(flags, 0, COMMA);
    var rule' := WithPart(rule, Trim(flags[..comma]));
    if comma == |flags| then rule' else WithFlags(rule', flags[comma + 1..])
  }

  // ----- the scan -----

  lemma NoCommaLeft(rule: Rule, flags: Text)
    requires NoComma(flags)
    ensures WithFlags(rule, flags) == WithPart(rule, Trim(flags))
  {
    assert IndexFrom(flags, 0, COMMA) == |flags|;
    assert flags[..|flags|] == flags;
  }

  lemma FirstPart(rule: Rule, part: Text, rest: Text)
    requires NoComma(part)
    ensures WithFlags(rule, part + ([COMMA] + rest)) == WithFlags(WithPart(rule, Trim(part)), rest)
  {
    var flags := part + ([COMMA] + rest);
    IndexFromIs(flags, 0, COMMA, |part|);
    assert flags[..|part|] == part && flags[|part| + 1..] == rest;
  }

  lemma EmptyPart(rule: Rule)
    ensures WithPart(rule, []) == rule && WithFlags(rule, []) == rule
  {
    NoCommaLeft(rule, []);
  }

  lemma LeadingCommaSkipped(rule: Rule, flags: Text)
    requires flags != [] && flags[0] == COMMA
    ensures WithFlags(rule, flags) == WithFlags(rule, flags[1..])
  {
    assert flags == [] + ([COMMA] + flags[1..]);
    FirstPart(rule, [], flags[1..]);
    EmptyPart(rule);
  }

  lemma LeadingSpaceSkipped(rule: Rule, flags: Text)
    requires flags != [] && flags[0] == SPACE
    ensures WithFlags(rule, flags) == WithFlags(rule, flags[1..])
  {
    var comma := IndexFrom(flags, 0, COMMA);
    IndexFromIs(flags[1..], 0, COMMA, comma - 1);
    assert flags[..comma][1..] == flags[1..][..comma - 1];
    assert Trim(flags[..comma]) == Trim(flags[1..][..comma - 1]);
    if comma < |flags| {
      assert flags[comma + 1..] == flags[1..][comma..];
    }
  }

  method TrimPart(part: Text) returns (s: Text)
    ensures s == Trim(part)
  {
    s := part;
    while |s| > 0 && (s[0] == SPACE || s[0] == OPEN_BRACKET)
      invariant TrimStart(s) == TrimStart(part)
    {
      s := s[1..];
    }
    while |s| > 0 && (s[|s| - 1] == SPACE || s[|s| - 1] == CLOSE_BRACKET)
      invariant TrimEnd(s) == Trim(part)
    {
      s := s[..|s| - 1];
    }
  }

  /** `htaccess_parse_rule_flags`. */
  method ParseRuleFlags(flags: Text, rule: Rule) returns (r: Rule)
    ensures r == WithFlags(rule, flags)
  {
    hide WithPart, WithFlags, Trim;
    r := rule;
    var p := 0;
    assert flags[0..] == flags;
    while p < |flags|
      invariant p <= |flags|
      invariant WithFlags(r, flags[p..]) == WithFlags(rule, flags)
    {
      while p < |flags| && (flags[p] == COMMA || flags[p] == SPACE)
        invariant p <= |flags|
        invariant WithFlags(r, flags[p..]) == WithFlags(rule, flags)
      {
        if flags[p] == COMMA {
          LeadingCommaSkipped(r, flags[p..]);
        } else {
          LeadingSpaceSkipped(r, flags[p..]);
        }
        assert flags[p..][1..] == flags[p + 1..];
        p := p + 1;
      }
      if p >= |flags| {
        break;
      }
      var start := p;
      while p < |flags| && flags[p] != COMMA
        invariant start <= p <= |flags|
        invariant forall k :: start <= k < p ==> flags[k] != COMMA
      {
        p := p + 1;
      }
      PartScanned(r, flags, start, p);
      var part := TrimPart(flags[start..p]);
      if |part| == 0 {
        EmptyPart(r);
        continue;
      }
      r := WithPart(r, part);
    }
    assert flags[p..] == [];
    EmptyPart(r);
  }

  lemma PartScanned(rule: Rule, flags: Text, start: nat, p: nat)
    requires start < p <= |flags|
    requires forall k :: start <= k < p ==> flags[k] != COMMA
    requires p < |flags| ==> flags[p] == COMMA
    ensures WithFlags(rule, flags[start..]) == WithFlags(WithPart(rule, Trim(flags[start..p])), flags[p..])
  {
    var part := flags[start..p];
    var rule' := WithPart(rule, Trim(part));
    if p == |flags| {
      assert flags[p..] == [] && flags[start..] == part;
      NoCommaLeft(rule, part);
      EmptyPart(rule');
    } else {
      assert flags[start..] == part + ([COMMA] + flags[p + 1..]);
      FirstPart(rule, part, flags[p + 1..]);
      LeadingCommaSkipped(rule', flags[p..]);
      assert flags[p..][1..] == flags[p + 1..];
    }
  }

  // ----- printing and reading back -----

  function PrintFlag(f: Flag): Text {
    match f
    case Last => [UPPER_L]
    case End => Ascii("END")
    case NoCase => Ascii("NC")
    case Chain => [UPPER_C]
    case Qsa => Ascii("QSA")
    case RedirectTo(code) => [UPPER_R, EQUALS] + PrintNumber(code)
    case SetEnv(entry) => [UPPER_E, EQUALS] + entry
  }

  /** What a flag list can express: a code that fits, an entry without commas that trimming leaves alone. */
  predicate Expressible(f: Flag) {
    match f
    case RedirectTo(code) => code <= MAX_INT
    case SetEnv(entry) => NoComma(entry) && (entry != [] ==> !Closes(entry[|entry| - 1]))
    case _ => true
  }

  function WithAll(rule: Rule, fs: seq<Flag>): Rule
    decreases |fs|
  {
    if fs == [] then rule else WithAll(WithFlag(rule, fs[0]), fs[1..])
  }

  function JoinFlags(fs: seq<Flag>): Text {
    if fs == [] then [CLOSE_BRACKET]
    else if |fs| == 1 then PrintFlag(fs[0]) + [CLOSE_BRACKET]
    else PrintFlag(fs[0]) + ([COMMA] + JoinFlags(fs[1..]))
  }

  function PrintFlags(fs: seq<Flag>): Text {
    [OPEN_BRACKET] + JoinFlags(fs)
  }

  predicate Tight(s: Text) {
    s != [] && !Opens(s[0]) && !Closes(s[|s| - 1]) && NoComma(s)
  }

  lemma PrintedFlagIsTight(f: Flag)
    requires Expressible(f)
    ensures Tight(PrintFlag(f))
  {
    if f.RedirectTo? {
      NumberRoundTrip(f.code);
      var digits := PrintNumber(f.code);
      assert IsDigit(digits[|digits| - 1]);
    }
  }

  lemma TightIsTrimmed(s: Text)
    requires Tight(s)
    ensures Trim(s) == s && Trim([OPEN_BRACKET] + s) == s
    ensures Trim(s + [CLOSE_BRACKET]) == s && Trim([OPEN_BRACKET] + (s + [CLOSE_BRACKET])) == s
  {
    assert ([OPEN_BRACKET] + s)[1..] == s;
    var closed := s + [CLOSE_BRACKET];
    assert closed[..|s|] == s;
    assert ([OPEN_BRACKET] + closed)[1..] == closed;
  }

  lemma PrintedWordIsRead(f: Flag)
    requires !f.RedirectTo? && !f.SetEnv?
    ensures FlagOf(PrintFlag(f)) == Some(f)
  {
    var part := PrintFlag(f);
    assert part[..|part|] == part;
    if f.Qsa? {
      assert part[0] == Ascii("QSA")[0] == 0x51;
      assert Fold(part[..3])[0] != Fold(Ascii("END"))[0];
    }
  }

  lemma PrintedRedirectIsRead(code: nat)
    requires code <= MAX_INT
    ensures FlagOf(PrintFlag(RedirectTo(code))) == Some(RedirectTo(code))
  {
    hide PrintNumber, Decimal, AllDigits;
    var part := PrintFlag(RedirectTo(code));
    NumberRoundTrip(code);
    IndexFromIs(part, 0, EQUALS, 1);
    assert part[2..] == PrintNumber(code);
    assert Fold(part[..|part|])[0] != Fold(Ascii("END"))[0] && Fold(part[..|part|])[0] != Fold(Ascii("NC"))[0];
    assert |part| >= 3;
  }

  lemma PrintedEntryIsRead(entry: Text)
    ensures FlagOf(PrintFlag(SetEnv(entry))) == Some(SetEnv(entry))
  {
    var part := PrintFlag(SetEnv(entry));
    assert part[2..] == entry && part[..2] == Ascii("E=");
    assert !Is(part, Ascii("END")) by {
      if |part| == 3 { assert Fold(part[..3])[1] != Fold(Ascii("END"))[1]; }
    }
    assert !Is(part, Ascii("NC")) by {
      if |part| == 2 { assert Fold(part[..2])[0] != Fold(Ascii("NC"))[0]; }
    }
    assert !Is(part, Ascii("QSA")) by {
      if |part| == 3 { assert Fold(part[..3])[0] != Fold(Ascii("QSA"))[0]; }
    }
  }

  lemma PrintedFlagIsRead(rule: Rule, f: Flag)
    requires Expressible(f)
    ensures WithPart(rule, PrintFlag(f)) == WithFlag(rule, f)
  {
    hide FlagOf, PrintFlag;
    match f
    case RedirectTo(code) => PrintedRedirectIsRead(code);
    case SetEnv(entry) => PrintedEntryIsRead(entry);
    case _ => PrintedWordIsRead(f);
  }

  /** The list from its first flag on, whether or not the opening bracket still stands before it. */
  lemma {:induction false} JoinedFlagsAreRead(rule: Rule, fs: seq<Flag>, bracket: bool)
    requires forall k :: 0 <= k < |fs| ==> Expressible(fs[k])
    ensures WithFlags(rule, (if bracket then [OPEN_BRACKET] else []) + JoinFlags(fs)) == WithAll(rule, fs)
    decreases |fs|
  {
    hide WithPart, WithFlag, WithFlags, Trim, PrintFlag, Expressible, Opens, Closes;
    var start := if bracket then [OPEN_BRACKET] else [];
    if fs == [] {
      NothingListed(rule, bracket);
    } else {
      var part := PrintFlag(fs[0]);
      PrintedFlagIsTight(fs[0]);
      TightIsTrimmed(part);
      PrintedFlagIsRead(rule, fs[0]);
      if |fs| == 1 {
        var only := start + (part + [CLOSE_BRACKET]);
        assert !bracket ==> only == part + [CLOSE_BRACKET];
        NoCommaLeft(rule, only);
        assert WithAll(WithFlag(rule, fs[0]), fs[1..]) == WithFlag(rule, fs[0]);
      } else {
        assert start + JoinFlags(fs) == (start + part) + ([COMMA] + JoinFlags(fs[1..]));
        assert !bracket ==> start + part == part;
        FirstPart(rule, start + part, JoinFlags(fs[1..]));
        JoinedFlagsAreRead(WithFlag(rule, fs[0]), fs[1..], false);
        assert [] + JoinFlags(fs[1..]) == JoinFlags(fs[1..]);
      }
    }
  }

  lemma NothingListed(rule: Rule, bracket: bool)
    ensures WithFlags(rule, (if bracket then [OPEN_BRACKET] else []) + [CLOSE_BRACKET]) == rule
  {
    var list := (if bracket then [OPEN_BRACKET] else []) + [CLOSE_BRACKET];
    assert TrimStart(list) == [CLOSE_BRACKET] by {
      assert bracket ==> list[1..] == [CLOSE_BRACKET];
    }
    assert [CLOSE_BRACKET][..0] == [];
    NoCommaLeft(rule, list);
    EmptyPart(rule);
  }

  /** Flags printed as a bracketed comma list, in any order, are read back with exactly their effects. */
  lemma FlagsRoundTrip(rule: Rule, fs: seq<Flag>)
    requires forall k :: 0 <= k < |fs| ==> Expressible(fs[k])
    ensures WithFlags(rule, PrintFlags(fs)) == WithAll(rule, fs)
  {
    JoinedFlagsAreRead(rule, fs, true);
  }

  function Entries(fs: seq<Flag>): seq<Text> {
    if fs == [] then []
    else Entry(fs[0]) + Entries(fs[1..])
  }

  /** `fs` lists exactly the flags of `rule`, its environment entries in order. */
  ghost predicate Lists(fs: seq<Flag>, rule: Rule) {
    && (Last in fs <==> rule.last)
    && (End in fs <==> rule.end)
    && (NoCase in fs <==> rule.nocase)
    && (Chain in fs <==> rule.chain)
    && (Qsa in fs <==> rule.qsa)
    && (if rule.redirect then RedirectTo(rule.redirectCode) in fs else rule.redirectCode == 0)
    && (forall f :: f in fs && f.RedirectTo? ==> rule.redirect && f.code == rule.redirectCode)
    && Entries(fs) == rule.envVars
  }

  /** The rule before its flags are read. */
  function Unflagged(rule: Rule): Rule {
    rule.(last := false, end := false, nocase := false, chain := false, qsa := false,
          redirect := false, redirectCode := 0, envVars := [])
  }

  /** Whether the rule has the flag `f`, whatever its argument. */
  predicate HasFlag(rule: Rule, f: Flag) {
    match f
    case Last => rule.last
    case End => rule.end
    case NoCase => rule.nocase
    case Chain => rule.chain
    case Qsa => rule.qsa
    case RedirectTo(_) => rule.redirect
    case SetEnv(_) => rule.envVars != []
  }

  lemma OneFlag(rule: Rule, f: Flag, g: Flag)
    requires !g.RedirectTo? && !g.SetEnv?
    ensures HasFlag(WithFlag(rule, f), g) <==> HasFlag(rule, g) || f == g
  {
  }

  lemma {:induction false} WordsOfAll(rule: Rule, fs: seq<Flag>, g: Flag)
    requires !g.RedirectTo? && !g.SetEnv?
    ensures HasFlag(WithAll(rule, fs), g) <==> HasFlag(rule, g) || g in fs
    decreases |fs|
  {
    hide HasFlag, WithFlag;
    if fs == [] {
    } else {
      OneFlag(rule, fs[0], g);
      WordsOfAll(WithFlag(rule, fs[0]), fs[1..], g);
      assert g in fs <==> fs[0] == g || g in fs[1..];
    }
  }

  lemma OneRedirect(rule: Rule, f: Flag)
    ensures var r := WithFlag(rule, f);
            if f.RedirectTo? then r.redirect && r.redirectCode == f.code
            else r.redirect == rule.redirect && r.redirectCode == rule.redirectCode
  {
  }

  lemma {:induction false} RedirectOfAll(rule: Rule, fs: seq<Flag>, code: nat)
    requires forall k :: 0 <= k < |fs| && fs[k].RedirectTo? ==> fs[k].code == code
    ensures var r := WithAll(rule, fs);
            if RedirectTo(code) in fs then r.redirect && r.redirectCode == code
            else r.redirect == rule.redirect && r.redirectCode == rule.redirectCode
    decreases |fs|
  {
    hide WithFlag;
    if fs == [] {
    } else {
      OneRedirect(rule, fs[0]);
      RedirectOfAll(WithFlag(rule, fs[0]), fs[1..], code);
      assert RedirectTo(code) in fs <==> fs[0] == RedirectTo(code) || RedirectTo(code) in fs[1..];
    }
  }

  function Entry(f: Flag): seq<Text> {
    if f.SetEnv? then [f.entry] else []
  }

  lemma OneEntry(rule: Rule, f: Flag)
    ensures WithFlag(rule, f).envVars == rule.envVars + Entry(f)
  {
    if !f.SetEnv? {
      assert rule.envVars + [] == rule.envVars;
    }
  }

  lemma {:induction false} EntriesOfAll(rule: Rule, fs: seq<Flag>)
    ensures WithAll(rule, fs).envVars == rule.envVars + Entries(fs)
    decreases |fs|
  {
    hide WithFlag, Entry;
    if fs == [] {
    } else {
      OneEntry(rule, fs[0]);
      EntriesOfAll(WithFlag(rule, fs[0]), fs[1..]);
      assert (rule.envVars + Entry(fs[0])) + Entries(fs[1..]) == rule.envVars + (Entry(fs[0]) + Entries(fs[1..]));
    }
  }

  lemma OneFlagKeepsTheRest(rule: Rule, f: Flag)
    ensures Unflagged(WithFlag(rule, f)) == Unflagged(rule)
  {
  }

  lemma {:induction false} NothingElse(rule: Rule, fs: seq<Flag>)
    ensures Unflagged(WithAll(rule, fs)) == Unflagged(rule)
    decreases |fs|
  {
    hide WithFlag, Unflagged;
    if fs == [] {
    } else {
      OneFlagKeepsTheRest(rule, fs[0]);
      NothingElse(WithFlag(rule, fs[0]), fs[1..]);
    }
  }

  /**
   Flag-list round trip: printing a rule's flags in any order as a bracketed comma list and
   parsing the list restores the rule, its environment entries in order.
   */
  lemma FlagListRoundTrip(rule: Rule, fs: seq<Flag>)
    requires Lists(fs, rule)
    requires forall k :: 0 <= k < |fs| ==> Expressible(fs[k])
    ensures WithFlags(Unflagged(rule), PrintFlags(fs)) == rule
  {
    FlagsRoundTrip(Unflagged(rule), fs);
    WordsOfAll(Unflagged(rule), fs, Last);
    WordsOfAll(Unflagged(rule), fs, End);
    WordsOfAll(Unflagged(rule), fs, NoCase);
    WordsOfAll(Unflagged(rule), fs, Chain);
    WordsOfAll(Unflagged(rule), fs, Qsa);
    RedirectOfAll(Unflagged(rule), fs, rule.redirectCode);
    EntriesOfAll(Unflagged(rule), fs);
    NothingElse(Unflagged(rule), fs);
    assert [] + Entries(fs) == Entries(fs);
  }

  // ----- which lists redirect -----

  /** The trimmed comma-separated parts of a list. */
  function Parts(flags: Text): seq<Text>
    decreases |flags|
  {
    var comma := IndexFrom(flags, 0, COMMA);
    [Trim(flags[..comma])] + if comma == |flags| then [] else Parts(flags[comma + 1..])
  }

  lemma PartRedirects(rule: Rule, part: Text)
    ensures WithPart(rule, part).redirect <==> rule.redirect || IsRedirect(part)
  {
    hide Trim, RedirectCode;
    if IsRedirect(part) {
      assert !Is(part, Ascii("END")) by {
        if |part| == 3 { assert Fold(part[..3])[0] != Fold(Ascii("END"))[0]; }
      }
      assert !Is(part, Ascii("NC")) by {
        if |part| == 2 { assert Fold(part[..2])[0] != Fold(Ascii("NC"))[0]; }
      }
    } else if FlagOf(part).Some? {
      OneRedirect(rule, FlagOf(part).value);
    }
  }

  /** A list makes its rule a redirect if and only if one of its parts has two bytes or more and starts with R. */
  lemma {:induction false} WhenListRedirects(rule: Rule, flags: Text)
    ensures WithFlags(rule, flags).redirect <==>
            rule.redirect || exists part :: part in Parts(flags) && IsRedirect(part)
    decreases |flags|
  {
    hide WithPart, IsRedirect, Trim;
    var comma := IndexFrom(flags, 0, COMMA);
    var part := Trim(flags[..comma]);
    var rule' := WithPart(rule, part);
    PartRedirects(rule, part);
    if comma == |flags| {
      assert Parts(flags) == [part];
    } else {
      var rest := flags[comma + 1..];
      WhenListRedirects(rule', rest);
      assert forall p :: p in Parts(flags) <==> p == part || p in Parts(rest);
    }
  }

  /** A bare R, alone or beside other flags, is not a redirect: no list of one-byte parts sets one. */
  lemma BareRedirectIgnored(rule: Rule, flags: Text)
    requires forall part :: part in Parts(flags) ==> |part| <= 1
    ensures WithFlags(rule, flags).redirect == rule.redirect
  {
    hide WithFlags, Parts;
    WhenListRedirects(rule, flags);
  }

  /** The list [R] is such a list. */
  lemma BareRedirectAlone(rule: Rule)
    ensures WithFlags(rule, Ascii("[R]")).redirect == rule.redirect
  {
    hide WithFlags, Trim, Parts;
    var flags: Text := [OPEN_BRACKET] + ([UPPER_R] + [CLOSE_BRACKET]);
    assert flags == Ascii("[R]");
    PartsOfOne(flags);
    TightIsTrimmed([UPPER_R]);
    BareRedirectIgnored(rule, flags);
  }

  /** So is [R,L]. */
  lemma BareRedirectBesideLast(rule: Rule)
    ensures WithFlags(rule, Ascii("[R,L]")).redirect == rule.redirect
  {
    hide WithFlags, Trim, Parts;
    var first: Text, second: Text := [OPEN_BRACKET] + [UPPER_R], [UPPER_L] + [CLOSE_BRACKET];
    var flags := first + ([COMMA] + second);
    assert flags == Ascii("[R,L]");
    PartsOfTwo(first, second);
    TightIsTrimmed([UPPER_R]);
    TightIsTrimmed([UPPER_L]);
    BareRedirectIgnored(rule, flags);
  }

  lemma PartsOfOne(part: Text)
    requires NoComma(part)
    ensures Parts(part) == [Trim(part)]
  {
    assert IndexFrom(part, 0, COMMA) == |part| && part[..|part|] == part;
  }

  lemma PartsOfTwo(first: Text, second: Text)
    requires NoComma(first) && NoComma(second)
    ensures Parts(first + ([COMMA] + second)) == [Trim(first), Trim(second)]
  {
    var flags := first + ([COMMA] + second);
    IndexFromIs(flags, 0, COMMA, |first|);
    assert flags[..|first|] == first && flags[|first| + 1..] == second;
    PartsOfOne(second);
  }
}
