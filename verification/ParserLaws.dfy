/** What parsing guarantees about a whole file, seen as a sequence of lines. */
module ParserLaws {
  import opened Options
  import opened Bytes
  import opened Directives
  import opened Lexer
  import opened LexerLaws
  import opened Parser
  import opened RuleFlags

  /** The parser's state after some lines. */
  function After(lines: seq<seq<Text>>): Step
    decreases |lines|
  {
    if lines == [] then Next(INITIAL_STATE)
    else
      match After(lines[..|lines| - 1])
      case Next(s) => LineStep(s, lines[|lines| - 1])
      case failure => failure
  }

  function Finished(step: Step): Parse {
    match step
    case Next(s) => Parsed(ParsedFile(s.directives))
    case Rejected => Unparsable
    case Undefined => Unpredictable
  }

  // ----- from bytes to lines -----

  function Continue(step: Step, lines: seq<seq<Text>>): Step
    decreases |lines|
  {
    if lines == [] || !step.Next? then step else Continue(LineStep(step.s, lines[0]), lines[1..])
  }

  lemma {:induction false} ContinueSnoc(step: Step, lines: seq<seq<Text>>, line: seq<Text>)
    ensures Continue(step, lines + [line]) ==
            match Continue(step, lines) case Next(s) => LineStep(s, line) case failure => failure
    decreases |lines|
  {
    hide LineStep;
    if lines == [] {
      assert ([] + [line])[1..] == [];
      assert step.Next? ==> Continue(LineStep(step.s, line), []) == LineStep(step.s, line);
    } else if step.Next? {
      assert (lines + [line])[1..] == lines[1..] + [line];
      ContinueSnoc(LineStep(step.s, lines[0]), lines[1..], line);
    }
  }

  lemma {:induction false} AfterIsContinue(lines: seq<seq<Text>>)
    ensures After(lines) == Continue(Next(INITIAL_STATE), lines)
    decreases |lines|
  {
    hide LineStep;
    if lines == [] {
    } else {
      var init, last := lines[..|lines| - 1], lines[|lines| - 1];
      AfterIsContinue(init);
      ContinueSnoc(Next(INITIAL_STATE), init, last);
      assert lines == init + [last];
    }
  }

  lemma ParseLine(t: Text, p: nat, s: ParserState, tokens: seq<Text>, next: nat)
    requires p < |t| && LexLine(t, p) == Line(tokens, next)
    ensures ParseFrom(t, p, s) ==
            match LineStep(s, tokens) case Next(s') => ParseFrom(t, next, s') case failure => Finished(failure)
  {
  }

  lemma LexFileLine(t: Text, p: nat)
    requires p < |t| && LexFile(t, p).FileLines?
    ensures var l := LexLine(t, p);
            l.Line? && LexFile(t, l.next).FileLines? && LexFile(t, p) == WithLine(l.tokens, LexFile(t, l.next))
  {
  }

  lemma {:induction false} ParseLines(t: Text, p: nat, s: ParserState)
    requires p <= |t| && LexFile(t, p).FileLines?
    ensures ParseFrom(t, p, s) == Finished(Continue(Next(s), LexFile(t, p).lines))
    decreases |t| - p
  {
    hide LexLine, LineStep, LexFile, ParseFrom;
    if p == |t| {
      NothingLeft(t, s);
    } else {
      LexFileLine(t, p);
      var l := LexLine(t, p);
      ParseLine(t, p, s, l.tokens, l.next);
      if l.tokens == [] {
        EmptyLineStep(s);
        ParseLines(t, l.next, s);
      } else {
        var rest := LexFile(t, l.next).lines;
        assert ([l.tokens] + rest)[1..] == rest;
        match LineStep(s, l.tokens)
        case Next(s') => ParseLines(t, l.next, s');
        case _ =>
      }
    }
  }

  lemma NothingLeft(t: Text, s: ParserState)
    ensures LexFile(t, |t|) == FileLines([]) && ParseFrom(t, |t|, s) == Parsed(ParsedFile(s.directives))
  {
  }

  lemma EmptyLineStep(s: ParserState)
    ensures LineStep(s, []) == Next(s)
  {
  }

  /** A file that lexes is parsed line by line. */
  lemma ParseTextByLines(t: Text)
    requires LexFile(t, 0).FileLines?
    ensures ParseText(t) == Finished(After(LexFile(t, 0).lines))
  {
    hide LexFile, ParseFrom, LineStep;
    ParseLines(t, 0, INITIAL_STATE);
    AfterIsContinue(LexFile(t, 0).lines);
  }

  /** Printing lines and parsing the text is the same as processing the lines. */
  lemma ParsePrinted(lines: seq<seq<Printed>>)
    requires Lines(lines)
    ensures ParseText(PrintFile(lines)) == Finished(After(AllTexts(lines)))
  {
    hide LexFile, ParseText, LineStep;
    FileRoundTrip(lines);
    ParseTextByLines(PrintFile(lines));
  }

  // ----- conditions -----

  predicate IsCondLine(line: seq<Text>) {
    line != [] && !IsTag(line[0]) && FindName(NAMES, line[0]) == Some(NameRewriteCond)
  }

  predicate IsRuleLine(line: seq<Text>) {
    line != [] && !IsTag(line[0]) && FindName(NAMES, line[0]) == Some(NameRewriteRule)
  }

  /** A line that, if accepted, stores a directive. */
  predicate IsDirectiveLine(line: seq<Text>) {
    line != [] && !IsTag(line[0]) && FindName(NAMES, line[0]).Some? && !IsCondLine(line)
  }

  function CondOn(line: seq<Text>): seq<Cond> {
    if IsCondLine(line) && CondOf(line).Some? then [CondOf(line).value] else []
  }

  /** The conditions of all RewriteCond lines, in order. */
  function CondsOf(lines: seq<seq<Text>>): seq<Cond>
    decreases |lines|
  {
    if lines == [] then [] else CondsOf(lines[..|lines| - 1]) + CondOn(lines[|lines| - 1])
  }

  function CondsIn(d: Directive): seq<Cond> {
    if d.body.RewriteRule? then d.body.rule.conditions else []
  }

  /** The conditions attached to all rules, in order. */
  function Attached(ds: seq<Directive>): seq<Cond>
    decreases |ds|
  {
    if ds == [] then [] else Attached(ds[..|ds| - 1]) + CondsIn(ds[|ds| - 1])
  }

  lemma AttachedSnoc(ds: seq<Directive>, d: Directive)
    ensures Attached(ds + [d]) == Attached(ds) + CondsIn(d)
  {
    assert (ds + [d])[..|ds|] == ds;
  }

  lemma PartKeepsConditions(rule: Rule, part: Text)
    ensures WithPart(rule, part).conditions == rule.conditions && WithPart(rule, part).chainIn == rule.chainIn
  {
    hide FlagOf, WithFlag;
    var f := FlagOf(part);
    if f.Some? {
      OneFlagKeepsTheRest(rule, f.value);
      assert Unflagged(WithFlag(rule, f.value)).conditions == Unflagged(rule).conditions;
    }
  }

  lemma {:induction false} FlagsKeepConditions(rule: Rule, flags: Text)
    ensures WithFlags(rule, flags).conditions == rule.conditions && WithFlags(rule, flags).chainIn == rule.chainIn
    decreases |flags|
  {
    hide WithPart, Trim;
    var comma := IndexFrom(flags, 0, COMMA);
    PartKeepsConditions(rule, Trim(flags[..comma]));
    if comma == |flags| {
    } else {
      FlagsKeepConditions(WithPart(rule, Trim(flags[..comma])), flags[comma + 1..]);
    }
  }

  /** A rule takes all pending conditions and is not marked; no other directive is a rule. */
  lemma BodyTakesPending(name: Name, args: seq<Text>, pending: seq<Cond>)
    requires BodyOf(name, args, pending).GotBody?
    ensures var body := BodyOf(name, args, pending).body;
            && (body.RewriteRule? <==> name == NameRewriteRule)
            && (body.RewriteRule? ==> body.rule.conditions == pending && !body.rule.chainIn)
  {
    hide WithFlags, Is, StartsWithNoCase, Joined, ParseNumber, IsPermanent;
    if name == NameRewriteRule && |args| > 3 {
      FlagsKeepConditions(PlainRule(args[1], args[2], pending), args[3]);
    }
  }

  lemma StepConserves(s: ParserState, line: seq<Text>)
    requires LineStep(s, line).Next?
    ensures var s' := LineStep(s, line).s;
            Attached(s'.directives) + s'.pending == Attached(s.directives) + s.pending + CondOn(line)
  {
    hide BodyOf, FindName, CondOf, IsTag, Opened, Closed, Attached;
    if line != [] && !IsTag(line[0]) && FindName(NAMES, line[0]).Some? {
      var name := FindName(NAMES, line[0]).value;
      if name == NameRewriteCond {
        assert s.pending + CondOn(line) == LineStep(s, line).s.pending;
      } else {
        BodyTakesPending(name, line, s.pending);
        AttachedSnoc(s.directives, Directive(Innermost(s.stack), BodyOf(name, line, s.pending).body));
      }
    }
  }

  /**
   Condition conservation: whatever a file contains, the conditions attached to the rules so
   far, in order, followed by those still pending, are exactly the conditions of the
   RewriteCond lines so far.
   */
  lemma {:induction false} ConditionsAreConserved(lines: seq<seq<Text>>)
    requires After(lines).Next?
    ensures var s := After(lines).s; Attached(s.directives) + s.pending == CondsOf(lines)
    decreases |lines|
  {
    hide LineStep, CondOn, Attached;
    if lines == [] {
      NothingAttached();
    } else {
      var init, last := lines[..|lines| - 1], lines[|lines| - 1];
      ConditionsAreConserved(init);
      StepConserves(After(init).s, last);
    }
  }

  lemma NothingAttached()
    ensures Attached([]) == []
  {
  }

  /** The pending conditions are those of the RewriteCond lines since the last rule line, at `from - 1`. */
  lemma {:induction false} PendingSinceRule(lines: seq<seq<Text>>, from: nat)
    requires After(lines).Next? && from <= |lines|
    requires from == 0 || IsRuleLine(lines[from - 1])
    requires forall k :: from <= k < |lines| ==> !IsRuleLine(lines[k])
    ensures After(lines).s.pending == CondsOf(lines[from..])
    decreases |lines|
  {
    hide LineStep, CondOn, IsRuleLine;
    if lines == [] {
    } else {
      var init, last := lines[..|lines| - 1], lines[|lines| - 1];
      PendingStep(After(init).s, last);
      if from < |lines| {
        PendingSinceRule(init, from);
        assert lines[from..][..|lines[from..]| - 1] == init[from..];
      } else {
        assert lines[from..] == [];
      }
    }
  }

  lemma PendingStep(s: ParserState, line: seq<Text>)
    requires LineStep(s, line).Next?
    ensures LineStep(s, line).s.pending == if IsRuleLine(line) then [] else s.pending + CondOn(line)
  {
    hide BodyOf, FindName, CondOf, IsTag, Opened, Closed;
    if line != [] && !IsTag(line[0]) && FindName(NAMES, line[0]).Some? {
      var name := FindName(NAMES, line[0]).value;
      if name != NameRewriteCond {
        BodyTakesPending(name, line, s.pending);
      }
    }
  }

  /** A rule line's rule carries exactly the conditions of the lines since the previous rule line. */
  lemma ConditionsGoToNextRule(lines: seq<seq<Text>>, from: nat)
    requires lines != [] && IsRuleLine(lines[|lines| - 1]) && After(lines).Next?
    requires from < |lines| && (from == 0 || IsRuleLine(lines[from - 1]))
    requires forall k :: from <= k < |lines| - 1 ==> !IsRuleLine(lines[k])
    ensures var ds := After(lines).s.directives;
            && ds != [] && ds[|ds| - 1].body.RewriteRule?
            && ds[|ds| - 1].body.rule.conditions == CondsOf(lines[from..|lines| - 1])
  {
    hide BodyOf, FindName, CondOf, IsTag;
    var init, last := lines[..|lines| - 1], lines[|lines| - 1];
    PendingSinceRule(init, from);
    assert init[from..] == lines[from..|lines| - 1];
    BodyTakesPending(NameRewriteRule, last, After(init).s.pending);
  }

  // ----- blocks -----

  /** The patterns of the open blocks after some lines, if nesting were unlimited. */
  function OpenBlocks(lines: seq<seq<Text>>): seq<Text>
    decreases |lines|
  {
    if lines == [] then []
    else
      var outer, last := OpenBlocks(lines[..|lines| - 1]), lines[|lines| - 1];
      if last == [] || !IsTag(last[0]) then outer
      else if IsClosing(last[0]) then if outer == [] then [] else outer[..|outer| - 1]
      else outer + [FilesPattern(last[0])]
  }

  /** After `n` lines no more than 15 blocks are open. */
  ghost predicate ShallowAt(lines: seq<seq<Text>>, n: nat)
    requires n <= |lines|
  {
    |OpenBlocks(lines[..n])| <= 15
  }

  /** Never are more than 15 blocks open. */
  ghost predicate Shallow(lines: seq<seq<Text>>) {
    forall n :: 0 <= n <= |lines| ==> ShallowAt(lines, n)
  }

  /** After `n` lines the parser's stack is that of the open blocks. */
  ghost predicate StackIsExactAt(lines: seq<seq<Text>>, n: nat)
    requires n <= |lines|
  {
    After(lines[..n]).Next? && After(lines[..n]).s.stack == OpenBlocks(lines[..n])
  }

  ghost predicate StackIsExact(lines: seq<seq<Text>>) {
    forall n :: 0 <= n <= |lines| ==> StackIsExactAt(lines, n)
  }

  lemma StackStep(s: ParserState, line: seq<Text>)
    requires LineStep(s, line).Next?
    ensures LineStep(s, line).s.stack ==
            if line == [] || !IsTag(line[0]) then s.stack
            else if IsClosing(line[0]) then Closed(s.stack) else Opened(s.stack, line[0])
  {
    hide BodyOf, FindName, CondOf, IsTag, Opened, Closed, IsClosing;
  }

  lemma {:induction false} StackWithinBounds(lines: seq<seq<Text>>)
    requires After(lines).Next?
    ensures |After(lines).s.stack| <= MAX_DEPTH
    decreases |lines|
  {
    hide LineStep, FilesPattern;
    if lines == [] {
    } else {
      StackWithinBounds(lines[..|lines| - 1]);
      StackStep(After(lines[..|lines| - 1]).s, lines[|lines| - 1]);
    }
  }

  lemma ShallowPrefix(lines: seq<seq<Text>>, n: nat)
    requires Shallow(lines) && n <= |lines|
    ensures Shallow(lines[..n])
  {
    hide OpenBlocks;
    forall k | 0 <= k <= n ensures ShallowAt(lines[..n], k) {
      assert ShallowAt(lines, k) && lines[..n][..k] == lines[..k];
    }
  }

  lemma {:induction false} ShallowStack(lines: seq<seq<Text>>)
    requires After(lines).Next? && Shallow(lines)
    ensures After(lines).s.stack == OpenBlocks(lines)
    decreases |lines|
  {
    hide LineStep, FilesPattern;
    if lines == [] {
    } else {
      var init, last := lines[..|lines| - 1], lines[|lines| - 1];
      ShallowPrefix(lines, |init|);
      ShallowStack(init);
      StackStep(After(init).s, last);
      assert ShallowAt(lines, |lines|) && lines[..|lines|] == lines;
    }
  }

  lemma {:induction false} PrefixAccepted(lines: seq<seq<Text>>, n: nat)
    requires After(lines).Next? && n <= |lines|
    ensures After(lines[..n]).Next?
    decreases |lines|
  {
    hide LineStep;
    if n == |lines| {
      assert lines[..n] == lines;
    } else {
      var init := lines[..|lines| - 1];
      PrefixAccepted(init, n);
      assert init[..n] == lines[..n];
    }
  }

  /** The 16-slot stack tracks the open blocks throughout a file exactly when the file never nests deeper than 15. */
  lemma BlockStackIsExact(lines: seq<seq<Text>>)
    requires After(lines).Next?
    ensures StackIsExact(lines) <==> Shallow(lines)
  {
    hide LineStep, FilesPattern, OpenBlocks, After;
    forall n | 0 <= n <= |lines|
      ensures StackIsExactAt(lines, n) ==> ShallowAt(lines, n)
      ensures Shallow(lines) ==> StackIsExactAt(lines, n)
    {
      PrefixAccepted(lines, n);
      StackWithinBounds(lines[..n]);
      if Shallow(lines) {
        ShallowPrefix(lines, n);
        ShallowStack(lines[..n]);
      }
    }
  }

  lemma {:induction false} ContinueConcat(step: Step, a: seq<seq<Text>>, b: seq<seq<Text>>)
    ensures Continue(step, a + b) == Continue(Continue(step, a), b)
    decreases |a|
  {
    hide LineStep;
    if a == [] {
      assert a + b == b;
    } else if step.Next? {
      assert (a + b)[1..] == a[1..] + b;
      ContinueConcat(LineStep(step.s, a[0]), a[1..], b);
    }
  }

  lemma StrayStep(s: ParserState, line: seq<Text>)
    requires s.stack == [] && line != [] && IsTag(line[0]) && IsClosing(line[0])
    ensures LineStep(s, line) == Next(s)
  {
  }

  /** A file means the same without a closing tag it meets outside every block. */
  lemma StrayClosingTag(before: seq<seq<Text>>, line: seq<Text>, rest: seq<seq<Text>>)
    requires After(before).Next? && After(before).s.stack == []
    requires line != [] && IsTag(line[0]) && IsClosing(line[0])
    ensures After(before + [line] + rest) == After(before + rest)
  {
    hide LineStep, IsTag, IsClosing, After;
    var start := Next(INITIAL_STATE);
    AfterIsContinue(before);
    AfterIsContinue(before + [line] + rest);
    AfterIsContinue(before + rest);
    ContinueConcat(start, before + [line], rest);
    ContinueConcat(start, before, rest);
    ContinueSnoc(start, before, line);
    StrayStep(After(before).s, line);
  }

  /** In a file that never nests deeper than 15, a stored directive carries the pattern of the innermost open block. */
  lemma DirectiveInInnermostBlock(lines: seq<seq<Text>>)
    requires lines != [] && IsDirectiveLine(lines[|lines| - 1]) && After(lines).Next? && Shallow(lines)
    ensures var before := After(lines[..|lines| - 1]);
            && before.Next?
            && var ds := After(lines).s.directives;
            && |ds| == |before.s.directives| + 1 && ds[..|ds| - 1] == before.s.directives
            && var open := OpenBlocks(lines[..|lines| - 1]);
            && ds[|ds| - 1].filesMatch == if open == [] then [] else open[|open| - 1]
  {
    hide BodyOf, FindName, CondOf, IsTag, FilesPattern;
    var init := lines[..|lines| - 1];
    ShallowPrefix(lines, |init|);
    ShallowStack(init);
  }

  // ----- marks -----

  ghost predicate NoneMarked(ds: seq<Directive>) {
    forall d :: d in ds && d.body.RewriteRule? ==> !d.body.rule.chainIn
  }

  /** The parser marks no rule. */
  lemma {:induction false} ParsedRulesAreUnmarked(t: Text, p: nat, s: ParserState)
    requires p <= |t| && NoneMarked(s.directives)
    ensures ParseFrom(t, p, s).Parsed? ==> NoneMarked(ParseFrom(t, p, s).file.directives)
    decreases |t| - p
  {
    hide LexLine, LineStep;
    if p < |t| && LexLine(t, p).Line? {
      var l := LexLine(t, p);
      ParseLine(t, p, s, l.tokens, l.next);
      if LineStep(s, l.tokens).Next? {
        StepMarksNothing(s, l.tokens);
        ParsedRulesAreUnmarked(t, l.next, LineStep(s, l.tokens).s);
      }
    }
  }

  lemma StepMarksNothing(s: ParserState, line: seq<Text>)
    requires NoneMarked(s.directives) && LineStep(s, line).Next?
    ensures NoneMarked(LineStep(s, line).s.directives)
  {
    hide BodyOf, FindName, CondOf, IsTag;
    if line != [] && !IsTag(line[0]) && FindName(NAMES, line[0]).Some? {
      var name := FindName(NAMES, line[0]).value;
      if name != NameRewriteCond {
        BodyTakesPending(name, line, s.pending);
      }
    }
  }
}
