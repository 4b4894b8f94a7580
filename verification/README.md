# A verified model of ngx_http_htaccess

The module answers nginx requests from Apache `.htaccess` files.  It walks the directories on
the way to the request URI, loads one file per directory through a per-worker LRU cache, merges
what the files say, and then runs passes of redirection, rewriting and authorisation until the
request is answered, left to nginx, or `htaccess_max_redirects` passes are used up.

This project models that path from the bytes of a file to the answer, in Dafny, and proves what
it is meant to guarantee.  `dafny verify dfyconfig.toml` checks everything.

## How it is organised

| file | content |
|---|---|
| Options, Bytes, Directives | byte strings, nginx string helpers, the records of htaccess_directives.h |
| CacheModel, Cache, CacheRuns | the LRU queue on values, the linked queue in place, runs of loads |
| Lifetimes, IntactLaws | how long the files that loads return stay linked; which requests find theirs alive |
| Expander, VariableLaws | the template expander and its bounded buffer; what each variable, capture and escape stands for |
| Conditions, Rewrite, RewriteLaws, TargetLaws | condition lists, the rule loop, one rewrite, what a matched rule leaves |
| Chains, FlagLaws | the meaning of the C, L and END flags |
| Lexer, LexerLaws | the tokenizer, printing and reading back |
| RuleFlags, Parser, ParserLaws | flag lists, the parser, whole files as sequences of lines |
| PrinterLaws, SyntaxLaws | printing whole files and parsing them back; blanks, comments, flags in any case, lines skipped or refused |
| Walk, WalkLaws, MergeLaws | loading, marking, merging, the directory walk; what the merged context holds |
| Execute, RunLaws | one request; from what every step keeps to what every run keeps |
| AnswerLaws | which answer a request gets, and when |
| ExecuteLaws, EnvLaws, ExitLaws | heads of passes and growth; the environment; the request as it is left to nginx |
| Worker | a worker's life |

Code that works in place is a method (on a class, an array or a cursor) proved against a small
function; the laws are lemmas about those functions.  Main results:

* **No visible cache.**  `Worker.ServeAll`: through a worker's whole life, with any cache size, a
  file system that may change between any two loads, and conditions and passwords that may change
  between any two passes, every request gets the answer it would get, and is left to nginx as it
  would be, if every file were loaded and parsed afresh; and the cache goes through exactly the
  loads of the requests.  This rests on two provisos.  A path's (mtime, size) determines what
  reading it yields; `CacheRuns.WhenLoadIsTransparent` says exactly when a single load is affected.
  And parsed files are values in the model, whereas the C code destroys a file with its entry: the
  result speaks of the C code for the requests that evict no file they have merged.
* **When files outlive their request.**  `Worker.WhenVisitIsIntact`: a request finds all its files
  alive if and only if none of its loads unlinks an entry an earlier one of them returned.  Enough
  is a request with no more loads than the cache has room for, none of them stale
  (`IntactLaws.FreshVisitIsIntact`), or one that finds three times as many entries linked, stale or
  not (`IntactLaws.VisitOfLongQueueIsIntact`).  `IntactLaws.EditedFileBreaksVisit` is a request that
  is not intact, for every cache size.
* **The flag loop means chains.**  `Chains.FlagLoopRefinesChains`: the `chain_active` bit computes
  "the rules of a chain, until one does not match", for any initial value of the bit, so it never
  leaks between chains or directories; `WalkLaws.PassRunsChains` discharges its premise for
  whatever files the walk finds.
* **Which answer comes when.**  `AnswerLaws.StatusOfRun`, `WhenDeclined`, `RefusedGoesToDocument` and
  `RedirectOfRun`: over every run, 401, 403 and declining if and only if the verdicts, files rules and
  error documents of its passes say so; a redirect carries code and target of its directive or rule.
* **What the pieces mean.**  Laws that name texts and positions instead of the model's functions: the
  URI and query a target leaves (`TargetLaws`), the value of every variable and capture
  (`VariableLaws`), the directories and lists a walk merges (`MergeLaws`), condition lists
  (`Conditions.FirstDecisionCounts`).
* **Nothing is lost in parsing.**  `PrinterLaws.DirectivesRoundTrip`: directives of every kind, rules
  with flags and conditions, in their blocks, are printed to a text that parses to exactly them.
  Lexer, flag-list and template round trips; conservation of conditions; the 16-slot block stack is
  exact if and only if a file never nests deeper than 15.
* **Exactly when the cache forgets.**  `CacheRuns.LostExactly`: over every run, the loads that cost a
  linked entry its place.
* **Every run.**  Invariants at the head of every pass, the request as every exit leaves it, the
  original query kept under QSA, growth bounds for query and URI, variables that keep their first
  value, LRU order and conservation.  For the exits, the query and the environment `RunLaws.RunKeeps`
  carries what every step keeps to all passes; pass heads and growth, which count passes, have their
  own inductions in ExecuteLaws.

The environment is passed in.  Regular expressions, the outcome of a single condition, files rules,
redirections and the authorisation verdict are functions in `Deciders` and `Oracle`, without side
effects and fixed within one pass; each pass has its own, numbered by the load that comes next.  The
file system is a function from load number and path to a state, so it may differ at every load but
not during one.  An executed expression is assumed to yield 20 offsets of which every group is unset
or lies within the subject; with 20 slots PCRE itself sets the first twelve only, so for `$6` to `$9`
this is an assumption about the slots it leaves alone.

## Where code and documentation differ

* The repository's README.md (line 52) calls entries with a changed mtime or size invalidated.  A
  stale look-up moves the stale entry to the front and evicts the tail, so another entry is lost
  and the stale one stays linked, as a duplicate once the file is stored again
  (`CacheRuns.StaleLookupUnlinksTail`, `CacheRuns.LostExactly`, `CacheRuns.StaleLoadCostsAnotherEntry`).
  A negative entry does not avoid a stat either: whether it is returned depends on what a stat says
  at the look-up (`CacheModel.NegativeEntryNeedsStat`).
* The same line says that a file is parsed once and stored, which suggests that it stays while it is
  needed.  A walk can evict, and so destroy, a file it has just merged: ask twice for a file one
  directory below the root and edit the inner .htaccess in between, or walk through more files than
  the cache holds (`IntactLaws.EditedFileBreaksVisit`, `Lifetimes.StaleWalkLosesItsFile`,
  `Lifetimes.TooManyFilesAreNotIntact`).  `Worker.WhenVisitIsIntact` is the exact condition.
* The repository's README.md (line 40) lists the `R` flag.  A bare `R` is ignored: a list sets a
  redirect exactly when one of its trimmed parts has at least two bytes and starts with R
  (`RuleFlags.WhenListRedirects`, `RuleFlags.BareRedirectIgnored`).
* Conditions flagged OR join everything after them, not just their group
  (`Conditions.WhenReadingsAgree`).
* A matched rule applies its substitution exactly when this is no dash and expands and the rule has L
  or END or no C (`FlagLaws.WhenAttemptActs`), so a chain acts at most once
  (`FlagLaws.ChainActsAtMostOnce`); END is no different from L (`FlagLaws.EndIsLast`); of several
  values set for an environment variable the first wins (`EnvLaws.VariableKeepsValue`).

## Model

| member | source | states |
|---|---|---|
| Cache.LruCache.constructor | src/htaccess_cache.c:5-11 | a new cache is a well-formed empty queue whose capacity is the one asked for, or 1024 for 0, hence never 0 |
| Cache.Unlink | src/htaccess_cache.c:26-26 | removing a link leaves the circle joined both ways through exactly the others |
| Cache.InsertHead | src/htaccess_cache.c:125-125 | inserting after the sentinel leaves the circle joined both ways with the new link first |
| Cache.LruCache.Relink | src/htaccess_cache.c:52-53 | the found entry becomes the first, all others keep their order |
| Cache.LruCache.Evict | src/htaccess_cache.c:14-34 | drops the least recently used entry and nothing else; count stays the number of links |
| Cache.LruCache.Find | src/htaccess_cache.c:37-59 | finds the first entry for the path, if any, and moves it to the head; all others keep their order |
| Cache.LruCache.Lookup | src/htaccess_cache.c:62-97 | returns the found entry only if it is current for what stat says; otherwise evicts the tail of the reordered queue |
| Cache.LruCache.Store | src/htaccess_cache.c:100-129 | terminates, links the new entry first and keeps the newest entries that fit; count never exceeds the capacity |
| CacheModel.LoadConserves | src/htaccess_walk.c:15-53 | one load evicts at most one entry, look-up and store together, respects the capacity, and otherwise neither loses nor duplicates an entry |
| CacheModel.NegativeEntryNeedsStat | src/htaccess_cache.c:78-84 | a negative entry is returned exactly when a stat now finds no file |
| CacheRuns.RunConserves | src/htaccess_cache.c:14-129 | over every run: at most max entries linked, at most one eviction per load, linked plus evicted entries are exactly the stored ones |
| CacheRuns.CacheIsTransparent | src/htaccess_walk.c:5-56 | in every run with arbitrary changes of the file system, a cached load answers as stat-and-parse does, if (mtime, size) determines the outcome |
| CacheRuns.WhenLoadIsTransparent | src/htaccess_cache.c:78-96 | a single load differs from an uncached one exactly when it hits a positive entry with unchanged (mtime, size) whose file would parse differently now |
| CacheRuns.RunKeepsNewestFirst | src/htaccess_cache.c:37-129 | in every reachable state duplicates of a path are linked newest first and the first is the latest ever stored |
| CacheRuns.NoSupersededEntryReturns | src/htaccess_cache.c:37-97 | whatever a load returns from the cache is the entry stored last for its path |
| CacheRuns.EvictionTakesOldest | src/htaccess_cache.c:14-34 | in every run an evicted entry is older than every entry of its path that stays or is stored by the same load |
| CacheRuns.LoadMovesByOne | src/htaccess_cache.c:37-59 | a load that meets no stale entry moves any other entry back by at most one position, while that position stays below the capacity |
| CacheRuns.RecentEntrySurvives | src/htaccess_cache.c:37-129 | with capacity M an entry returned or stored by a load is still linked after M-1 further loads none of which meets a stale entry |
| CacheRuns.LoadUnlinksExactly | src/htaccess_cache.c:14-129 | a load unlinks an entry if and only if it meets a stale entry while this is the least recently used other one (or the only one), or stores without a hit into a full queue of which this is the tail |
| CacheRuns.LostExactly | src/htaccess_cache.c:14-129 | over every run, a linked entry is later no longer linked if and only if one of the loads between was such a load |
| CacheRuns.StaleLookupUnlinksTail | src/htaccess_cache.c:78-96 | in every run a stale look-up unlinks the least recently used other entry, and the stale one exactly when it is the only one |
| CacheRuns.StaleLoadCostsAnotherEntry | src/htaccess_cache.c:78-96 | without that proviso survival fails: for any two paths and any capacity from 3, an entry just stored is lost by two further loads of which the second meets a stale entry |
| Lifetimes.FileLostExactly | src/htaccess_cache.c:14-34 | in any run, the file a load returned is destroyed by the end if and only if a later load unlinks its entry |
| Lifetimes.IntactExactly | src/htaccess_cache.c:14-129 | loads keep all the files they return if and only if none of them unlinks one an earlier one returned |
| Lifetimes.FewFreshLoadsAreIntact | src/htaccess_cache.c:37-129 | so do at most as many loads as the capacity, none of which meets a stale entry |
| Lifetimes.TooManyFilesAreNotIntact | src/htaccess_cache.c:108-110 | loads that return files of more distinct paths than the capacity have destroyed one of them |
| Lifetimes.FreshFilesAreIntactIffTheyFit | src/htaccess_cache.c:37-129 | where every load returns a file of its own path and none is stale, all are kept exactly when they fit the capacity |
| Lifetimes.LoadsInLongQueueAreIntact | src/htaccess_cache.c:37-129 | loads that start with three times as many entries linked keep their files, however many entries are stale |
| Lifetimes.StaleWalkLosesItsFile | src/htaccess_walk.c:15-53 | in a cache of any capacity from 2, for any two cached paths, finding the first unchanged and then the second changed destroys the first file |
| Lifetimes.PartsAreIntact | src/htaccess_walk.c:324-419 | loads intact as a whole are intact up to every earlier point and from any point on |
| Expander.EnvGet | src/htaccess_rewrite.c:5-25 | yields the value set first under the name, compared as C strings of one length |
| Expander.GetHttpHeader | src/htaccess_vars.c:5-34 | the first header of that name, in any case; Host falls back on the server name |
| Expander.ExpandCopy | src/htaccess_vars.c:37-47 | appends exactly when the bytes fit the buffer, and leaves what was written before |
| Expander.VariableValue | src/htaccess_vars.c:105-151 | the value of a variable by its name in any case; unset and unknown variables are empty |
| Expander.NextItem | src/htaccess_vars.c:71-160 | one step of the scan reads exactly one item and its value, or finds a variable that is never closed |
| Expander.Expand | src/htaccess_vars.c:50-166 | succeeds exactly when every `%{` reached is closed and the expansion has at most 4n+256 bytes, then yields the expansion; no write leaves the buffer |
| Expander.ItemsRoundTrip | src/htaccess_vars.c:70-160 | every list of literals, captures and variables is the reading of the template that prints it |
| Expander.EscapedTextExpandsToItself | src/htaccess_vars.c:71-77 | a text with every byte escaped always expands, and to itself |
| Expander.PlainPrefixIsCopied | src/htaccess_vars.c:157-159 | bytes other than backslash, dollar and percent in front of a template come out in front of its expansion |
| Expander.ExpansionComposes | src/htaccess_vars.c:60-165 | for a base of such bytes, expanding base ++ t cannot fail once expanding t succeeded, and gives base ++ that result |
| VariableLaws.RequestUriExpands | src/htaccess_vars.c:138-142 | `%{REQUEST_URI}` in any case, whatever follows the name, expands to the URI, if it fits the buffer |
| VariableLaws.RequestFilenameExpands | src/htaccess_vars.c:133-137 | `%{REQUEST_FILENAME}` expands to the file name |
| VariableLaws.QueryStringExpands | src/htaccess_vars.c:128-132 | `%{QUERY_STRING}` expands to the query |
| VariableLaws.HttpHostExpands | src/htaccess_vars.c:118-121 | `%{HTTP_HOST}` expands to the host |
| VariableLaws.HttpHeaderExpands | src/htaccess_vars.c:5-34 | `%{HTTP:name}` expands to the first header of that name in any case |
| VariableLaws.HttpHeaderAbsent | src/htaccess_vars.c:29-33 | without such a header it is the host for the name Host, and else empty |
| VariableLaws.EnvVariableExpands | src/htaccess_vars.c:106-117 | `%{ENV:name}` expands to the value set first for the name, and to nothing without one |
| VariableLaws.UnknownVariableIsEmpty | src/htaccess_vars.c:143-146 | a variable that starts with none of these names expands to nothing |
| VariableLaws.CaptureExpands | src/htaccess_vars.c:80-94 | `$n` expands to the n-th captured substring of the subject, and to nothing without one |
| VariableLaws.LoneByteIsCopied | src/htaccess_vars.c:71-160 | a final backslash, a dollar before no digit and a percent before no brace are copied |
| VariableLaws.UnclosedVariableFails | src/htaccess_vars.c:96-101 | a variable that is never closed makes the expansion fail |
| Conditions.MatchConditions | src/htaccess_rewrite.c:225-254 | the loop computes c1 op1 (c2 op2 (...)), a list ending in OR counting as satisfied |
| Conditions.GroupedImpliesNested | src/htaccess_rewrite.c:239-253 | whatever the AND of OR groups accepts, the loop accepts |
| Conditions.WhenReadingsAgree | src/htaccess_rewrite.c:239-253 | the two agree for all outcomes exactly for lists in which no condition follows the first complete OR group and the last has no OR flag |
| Conditions.FirstDecisionCounts | src/htaccess_rewrite.c:225-254 | a list is satisfied if and only if its first condition that is flagged OR and holds, or neither, is flagged OR, or there is none |
| Conditions.PlainListIsConjunction | src/htaccess_rewrite.c:239-253 | without OR flags all conditions must hold |
| Conditions.DocumentedImpliesSatisfied | src/htaccess_rewrite.c:239-253 | if up to each condition without OR, and to the last, one of those joined to it holds, the loop accepts the list |
| Conditions.ListReadingsAgree | src/htaccess_rewrite.c:239-253 | on a list with one final group loop and documented reading agree, whatever holds |
| Conditions.ListReadingsDiffer | src/htaccess_rewrite.c:239-253 | on every other list of different conditions they differ for some outcomes |
| Rewrite.ApplySubstitution | src/htaccess_rewrite.c:309-362 | base and substitution joined within their buffer, or the absolute or dash substitution alone |
| Rewrite.SplitTarget | src/htaccess_rewrite.c:373-414 | the absolute path of a target and its query, with the old query appended under QSA |
| Rewrite.ApplyTargetUri | src/htaccess_rewrite.c:365-443 | request and state both get the absolute path of the target and its query, the old query appended under QSA, and unparsed_uri made of them |
| Rewrite.ApplyEnvFlags | src/htaccess_rewrite.c:446-479 | each entry is expanded in the environment the earlier ones left and appended; entries without a colon or expansion set nothing |
| Rewrite.MatchRule | src/htaccess_rewrite.c:520-545 | a rule applies when its pattern compiles, its conditions hold and it matches the relative URI, in this order |
| Rewrite.FinalTarget | src/htaccess_rewrite.c:572-588 | a relative target is rebuilt behind the base and expanded again, staying unexpanded if that fails |
| Rewrite.Decide | src/htaccess_rewrite.c:549-606 | what a matched rule does: nothing, ending the pass, a redirect with its code, or a rewrite |
| Rewrite.TakeEffect | src/htaccess_rewrite.c:549-606 | request and state change as decided and by nothing else |
| Rewrite.TryRule | src/htaccess_rewrite.c:520-606 | one attempted rule changes request and state as the rule alone prescribes, or not at all if it does not match |
| Rewrite.ApplyRewrite | src/htaccess_rewrite.c:482-610 | the nested loops compute the flag machine over all rules of all directories with the engine on |
| Chains.MarkingIsExact | src/htaccess_walk.c:59-82 | marking gives chain_in to exactly the rules whose nearest preceding rule in the directory has the C flag |
| Chains.IncrementalMarking | src/htaccess_walk.c:102-114 | marking again after an appended directive gives the same as marking once at the end |
| Chains.BodiesRefineChains | src/htaccess_rewrite.c:509-606 | from any point of a directory on, the flag loop runs the remaining chains, less the rest of a chain that failed |
| Chains.FlagLoopRefinesChains | src/htaccess_rewrite.c:500-607 | over all directories the loop computes the chain-by-chain reading for every initial value of the flag: it never leaks |
| Chains.AttemptedIffChainMatched | src/htaccess_rewrite.c:509-606 | whatever the flag is on entry, a rule the pass gets to is attempted if and only if every earlier rule of its chain was attempted and matched |
| FlagLaws.LinkChangesEnvOnly | src/htaccess_rewrite.c:547-570 | a rule with C but neither L nor END changes at most the environment, and ends the pass only when its substitution does not expand |
| FlagLaws.ChainActsAtMostOnce | src/htaccess_rewrite.c:509-606 | of the rules of a chain at most one rewrites or redirects, the last one attempted, which ends the chain or has L or END; if none does, the chain changes at most the environment |
| FlagLaws.WhenAttemptActs | src/htaccess_rewrite.c:520-606 | an attempt rewrites or redirects if and only if the rule matches, has no C or has L or END, and its substitution is no dash and expands in the environment its flags leave |
| FlagLaws.SwappingKeepsAttempt | src/htaccess_rewrite.c:549-603 | exchanging the L and END flags of a rule changes no attempt of it |
| FlagLaws.EndIsLast | src/htaccess_rewrite.c:482-610 | exchanging L and END on every rule of every directory changes no pass |
| RewriteLaws.RelativeUriRebuilds | src/htaccess_rewrite.c:284-306 | directory prefix, slash and relative URI make up the URI, except exactly for the request of the root itself |
| RewriteLaws.BaseIsPrepended | src/htaccess_rewrite.c:562-588 | with a base of plain bytes the second expansion never fails, and a relative target is the base followed by the first expansion |
| RewriteLaws.UrlTargetKeepsScheme | src/htaccess_rewrite.c:562-588 | the target of a substitution with a scheme is its first expansion and keeps the scheme, whatever the base and whatever it captures |
| RewriteLaws.TargetLength | src/htaccess_rewrite.c:562-588 | a target has at most 4(base+substitution)+256 bytes, also when the second expansion fails |
| RewriteLaws.UnparsedSplits | src/htaccess_execute.c:94-104 | unparsed_uri splits at the first question mark (section 3.4 of RFC 3986) into path and query exactly when the path has none |
| RewriteLaws.RewrittenIsSplit | src/htaccess_rewrite.c:377-440 | after a rewrite the URI is absolute and unparsed_uri splits back into URI and arguments |
| TargetLaws.PathBecomesUri | src/htaccess_rewrite.c:365-443 | a target without question mark gives URI and state that target, with a slash in front if it has none, and the old query under QSA alone |
| TargetLaws.PathAndQueryBecomeUri | src/htaccess_rewrite.c:365-443 | a target path?query gives that path and query, under QSA followed by the old query |
| TargetLaws.RelativeUriForms | src/htaccess_rewrite.c:284-306 | a pattern is matched against the URI less the directory's prefix and one slash |
| TargetLaws.WhenRuleMatches | src/htaccess_rewrite.c:520-545 | a rule matches if and only if it compiles in its case mode, its conditions hold of the request and executing it on the relative URI matches |
| TargetLaws.MatchedRuleRewrites | src/htaccess_rewrite.c:549-606 | a matched rule that rewrites, with a plain base, leaves base and expansion split into URI and query, and ends the pass exactly under L or END |
| TargetLaws.MatchedRuleRedirects | src/htaccess_rewrite.c:590-595 | one that redirects ends the pass with base and expansion and its own code, or 302 |
| TargetLaws.MatchedRuleLeaves | src/htaccess_rewrite.c:549-570 | a dash ends the pass under L or END and else changes the environment alone; a failing expansion ends it; a link goes on |
| TargetLaws.EnvFlagSets | src/htaccess_rewrite.c:446-479 | `E=name:value` gives a name without value the expansion of the value, if it expands |
| TargetLaws.EnvFlagsInOrder | src/htaccess_rewrite.c:458-478 | each flag sees what the earlier ones have set |
| TargetLaws.SubstitutionForms | src/htaccess_rewrite.c:309-362 | a dash is the subject, an absolute path or URL itself, anything else goes behind the base |
| Lexer.SkipSpace | src/htaccess_lexer.c:20-28 | stops at the first byte that is neither space nor tab |
| Lexer.SkipLine | src/htaccess_lexer.c:5-17 | stops after the line and all line ends that follow it |
| Lexer.ReadQuoted | src/htaccess_lexer.c:31-61 | finds the first unescaped closing quote, or that there is none |
| Lexer.ReadToken | src/htaccess_lexer.c:64-107 | the cursor loops find the token at a position, its end, or that it is malformed |
| Lexer.ReadLine | src/htaccess_lexer.c:110-154 | the tokens of a line in order, and the start of the next line |
| LexerLaws.LineRoundTrip | src/htaccess_lexer.c:31-154 | every list of escape-balanced tokens, printed bare, as a block or quoted and joined with spaces, is read back exactly, before any following text, the position at the next byte that ends no line |
| LexerLaws.FileRoundTrip | src/htaccess_lexer.c:110-154 | a file of printed lines reads back as its lines |
| LexerLaws.LexedIsPrintable | src/htaccess_lexer.c:64-107 | conversely a token read can be printed and read again if and only if it does not end in a backslash that escapes nothing |
| LexerLaws.EscapeAtEndOnly | src/htaccess_lexer.c:91-104 | a token ending in such a backslash is the last of the text |
| RuleFlags.TrimPart | src/htaccess_parser.c:239-247 | strips leading spaces and opening brackets, trailing spaces and closing brackets |
| RuleFlags.ParseRuleFlags | src/htaccess_parser.c:211-288 | the scan terminates and applies the trimmed comma-separated parts from left to right |
| RuleFlags.NumberRoundTrip | src/htaccess_parser.c:266-269 | a printed code has only digits and reads back as itself |
| RuleFlags.FlagsRoundTrip | src/htaccess_parser.c:225-287 | flags printed as a bracketed list in any order have exactly their effects when read |
| RuleFlags.FlagListRoundTrip | src/htaccess_parser.c:211-288 | any list of exactly a rule's flags, in any order, restores the rule, its E= entries in order |
| RuleFlags.WhenListRedirects | src/htaccess_parser.c:225-271 | a flag list makes its rule a redirect if and only if one of its trimmed parts has two bytes or more and starts with R in either case |
| RuleFlags.BareRedirectIgnored | src/htaccess_parser.c:259-261 | so no list of one-byte parts does, such as [R] and [R,L] |
| Parser.DirectiveId | src/htaccess_parser.c:5-49 | looks a word up among the directive names, ignoring case |
| Parser.JoinArgs | src/htaccess_parser.c:52-88 | the arguments joined with single spaces fill the measured buffer exactly |
| Parser.ParseRewriteCond | src/htaccess_parser.c:91-208 | rejects an unclosed variable or a missing argument, and reads the OR flag through spaces and brackets |
| Parser.PushDirective | src/htaccess_parser.c:291-452 | the record a directive line stores, or that its arguments are too few |
| Parser.PushSimple | src/htaccess_parser.c:330-448 | the records of the directives that read their argument unchecked |
| Parser.ParseFilesMatch | src/htaccess_parser.c:511-545 | the quoted pattern of a FilesMatch tag, empty for every other tag |
| Parser.EveryBlockIsEnabled | src/htaccess_parser.c:455-508 | as it is called, no block ever disables its contents |
| Parser.OpenBlock | src/htaccess_parser.c:607-612 | the fixed arrays hold the stack of open blocks with the new one, or unchanged when 15 are open; no index leaves them |
| Parser.CloseBlock | src/htaccess_parser.c:600-605 | the arrays hold the stack without its innermost block, or the empty stack as it was |
| Parser.ProcessDirective | src/htaccess_parser.c:616-631 | an unknown word changes nothing; a condition is queued; any other directive is stored under the innermost pattern, a rule emptying the queue |
| Parser.ParseBuffer | src/htaccess_parser.c:548-635 | the loop with its 16-slot arrays computes the line-by-line meaning of the buffer |
| ParserLaws.ParseTextByLines | src/htaccess_parser.c:580-632 | a buffer that lexes is parsed as the sequence of its lines |
| ParserLaws.ParsePrinted | src/htaccess_parser.c:548-635 | printing lines and parsing the text is the same as processing the lines |
| ParserLaws.ConditionsAreConserved | src/htaccess_parser.c:300-355 | at every point of every parse, the conditions of all rules in order followed by the pending ones are those of all RewriteCond lines |
| ParserLaws.ConditionsGoToNextRule | src/htaccess_parser.c:351-354 | a rule carries exactly the conditions of the lines since the previous rule, across other directives and blocks |
| ParserLaws.BlockStackIsExact | src/htaccess_parser.c:597-613 | the 16-slot stack equals the unbounded stack of open blocks throughout a file exactly when it never nests deeper than 15 |
| ParserLaws.DirectiveInInnermostBlock | src/htaccess_parser.c:324-328 | in such a file a stored directive carries the pattern of the innermost open block |
| ParserLaws.StrayClosingTag | src/htaccess_parser.c:600-605 | a file parses the same without a closing tag it meets outside every block |
| ParserLaws.ParsedRulesAreUnmarked | src/htaccess_parser.c:319-328 | parsing sets chain_in on no rule |
| PrinterLaws.WordIsFound | src/htaccess_parser.c:5-49 | no two directive names agree but for case: every name is looked up as itself |
| PrinterLaws.BodyIsRead | src/htaccess_parser.c:291-452 | the printed line of a directive of any kind is read as that directive, a rule taking the pending conditions |
| PrinterLaws.CondIsRead | src/htaccess_parser.c:91-208 | the printed line of a condition is read as that condition |
| PrinterLaws.DirectivesRoundTrip | src/htaccess_parser.c:548-635 | any directives whose fields a line can express and whose texts can be quoted, printed with flags, conditions and blocks, parse to exactly themselves |
| SyntaxLaws.BlanksAreSkipped | src/htaccess_lexer.c:20-28 | spaces and tabs before a token, comment or line end mean nothing |
| SyntaxLaws.CommentIsSkipped | src/htaccess_lexer.c:122-154 | a hash where a token could start makes the rest of the line a comment |
| SyntaxLaws.NextLineIs | src/htaccess_lexer.c:5-17 | a line ends at the first newline or carriage return, the next begins behind all of them |
| SyntaxLaws.BareWordIsRead | src/htaccess_lexer.c:92-106 | a bare word is read up to a space, tab, line end or hash, and the line goes on there |
| SyntaxLaws.OrFlagForms | src/htaccess_parser.c:184-205 | OR is recognised in any case, alone or in brackets, behind any spaces |
| SyntaxLaws.FlagsInAnyCase | src/htaccess_parser.c:253-286 | END, NC and QSA are taken in any case, L and C as capitals only, other one-letter parts not at all |
| SyntaxLaws.EnvFlagIsRead | src/htaccess_parser.c:275-285 | `E=entry` in any case adds the entry |
| SyntaxLaws.RedirectFlagIsRead | src/htaccess_parser.c:259-270 | R in any case with anything behind it redirects with the number behind the first equals sign, or with 302 |
| SyntaxLaws.PartIsTrimmed | src/htaccess_parser.c:239-247 | spaces and opening brackets in front, spaces and closing brackets behind are taken off a part |
| SyntaxLaws.UnknownWordIsSkipped | src/htaccess_parser.c:616-631 | a file means the same without a line that starts with an unknown word |
| SyntaxLaws.ShortLineRefusesFile | src/htaccess_parser.c:291-452 | a rule, redirection, header, expiry or document line with too few arguments, or a condition without test, refuses the whole file |
| SyntaxLaws.TagsOpenAndClose | src/htaccess_parser.c:597-613 | any `<...>` opens a block unless 15 are open, any `</...>` closes the innermost, and nothing else changes |
| SyntaxLaws.JoinedInOrder | src/htaccess_parser.c:52-88 | the arguments are put together in order with single spaces |
| SyntaxLaws.NameInAnyCase | src/htaccess_parser.c:5-49 | a directive's name is recognised in any case |
| SyntaxLaws.IndexesInAnyCase | src/htaccess_parser.c:440-448 | Options takes the indexes away if its argument begins with -Indexes in any case |
| SyntaxLaws.WhenRedirectIsPermanent | src/htaccess_parser.c:357-379 | a Redirect is permanent if its third argument begins with 301, RedirectMatch and RedirectPermanent always, RedirectTemp never |
| SyntaxLaws.HeaderForms | src/htaccess_parser.c:401-421 | Header takes action, name and value behind an optional `always` in any case; the value may be missing, the name not |
| SyntaxLaws.UnclosedTestRefusesFile | src/htaccess_parser.c:106-112 | a condition whose test opens a variable and never closes it refuses the whole file |
| SyntaxLaws.FilesMatchForms | src/htaccess_parser.c:511-545 | a FilesMatch tag in any case, with any blanks before the quote, has the pattern up to the next quote |
| SyntaxLaws.NoFilesMatch | src/htaccess_parser.c:511-545 | other tags, and tags without a quote, have no pattern |
| Walk.ParseFile | src/htaccess_parser.c:638-677 | declines a file that cannot be opened, fails on one that cannot be read or parsed, else yields its directives |
| Walk.LoadFile | src/htaccess_walk.c:5-56 | with the cache it is one cached load of the queue; without, stat and parse |
| Walk.DirContext.MarkRewriteChains | src/htaccess_walk.c:59-82 | the in-place loops set chain_in on exactly the first rule after each rule with the C flag |
| Walk.MergedContext.MergeDirective | src/htaccess_walk.c:85-266 | a directive changes the directory or the merged lists and scalars as its kind prescribes, and re-marks after a rule |
| Walk.MergedContext.MergeShared | src/htaccess_walk.c:132-262 | the cases of that switch that are not kept by directory |
| Walk.MergedContext.MergeParsed | src/htaccess_walk.c:269-286 | merging a file adds one directory last and applies its other directives after all earlier ones |
| Walk.JoinPath | src/htaccess_walk.c:289-321 | root, directory and file name joined with single slashes fit the buffer; the path is their C string |
| Walk.VisitDirectory | src/htaccess_walk.c:382-415 | one directory of the walk merges through the cache what a fresh load would |
| Walk.BuildMergedCtx | src/htaccess_walk.c:324-419 | through the cache the walk builds, files taken as values, exactly what loading and parsing every file afresh gives, and takes the cache through exactly the loads of the walk |
| WalkLaws.DirectoryIsMarkedOnce | src/htaccess_walk.c:102-114 | marking after every merged rule equals one final marking of the directory |
| WalkLaws.WalkIsRootFirst | src/htaccess_walk.c:377-416 | directories come root first with strictly increasing prefixes of the URI, each followed by a slash, and prefix, slash and relative URI make up the URI |
| WalkLaws.WalkIsWellMarked | src/htaccess_walk.c:59-130 | in every walk over any files, chain_in marks exactly the rules the C flag leads into |
| WalkLaws.PassRunsChains | src/htaccess_rewrite.c:482-610 | on whatever the walk collects, the rule loop computes the chain-by-chain reading |
| WalkLaws.WalkMergesInOrder | src/htaccess_walk.c:85-286 | apart from the rules, merging all files equals merging one file with all their directives, root first |
| MergeLaws.DirectoryOfFile | src/htaccess_walk.c:92-130 | the directory of a file has the engine of its last RewriteEngine, or off, the base of its last RewriteBase, or `/`, and all its rules and redirections in order, marked |
| MergeLaws.WalkCollectsDirectories | src/htaccess_walk.c:324-419 | a walk collects one such directory for each file it finds, in order |
| MergeLaws.WalkMergesEverything | src/htaccess_walk.c:132-262 | requirements, files rules, allows, denies, headers, expiries and documents are those of exactly the directives of their kind met, in walk order; each setting is the last of its kind |
| MergeLaws.PathOfDirectory | src/htaccess_walk.c:289-321 | the file of the directory at a slash of the URI is root, URI up to there, slash and file name |
| MergeLaws.PathOfRoot | src/htaccess_walk.c:289-321 | the root's file is root, one slash and file name |
| MergeLaws.WhatIsKept | src/htaccess_walk.c:15-56 | a load of an unknown path keeps that there is no file or none that opens, nothing of one that cannot be read or parsed, and the directives of any other |
| Execute.ResolveFilename | src/htaccess_execute.c:5-39 | root, one slash and the URI without its first byte, within the buffer; empty without a root |
| Execute.ApplyUri | src/htaccess_execute.c:81-110 | the request takes the state's URI and rebuilds unparsed_uri with its own arguments |
| Execute.FindErrorUri | src/htaccess_execute.c:113-133 | the first ErrorDocument with the code |
| Execute.Refuse | src/htaccess_execute.c:186-214 | a refusal continues with the error document for its status, or answers with the status |
| Execute.Conclude | src/htaccess_execute.c:172-219 | after rewriting: redirect, another pass with the filename resolved, or the authorisation verdict |
| Execute.RunPass | src/htaccess_execute.c:160-219 | one pass redirects, rewrites, authorises or substitutes an error document in the order of the code |
| Execute.TakePass | src/htaccess_execute.c:154-220 | one pass over the context the cache gives, files taken as values, leads where it would over freshly loaded files, and makes the loads of that pass |
| Execute.HandleRequest | src/htaccess_execute.c:136-223 | through the cache, files taken as values, a request is answered, and left, as with every file loaded afresh, in at most max_redirects passes; the cache goes through exactly its loads |
| AnswerLaws.VerdictAnswers | src/htaccess_execute.c:186-219 | a pass that gets a verdict declines, or answers 401 for unauthorised and 403 for denied, or goes on at the first document with that code |
| AnswerLaws.OtherwiseAnswers | src/htaccess_execute.c:160-184 | a pass without verdict answers 403 for its files rules, or redirects with code and target of its directive or rule, or goes on after a rewrite |
| AnswerLaws.DirsRedirect | src/htaccess_rewrite.c:590-595 | when the rules redirect, a rule of a directory with the engine on does, and leaves its own code or 302 |
| AnswerLaws.RunEnds | src/htaccess_execute.c:154-220 | a run is over with a response exactly when one of its passes has ended with it |
| AnswerLaws.StatusOfRun | src/htaccess_execute.c:136-223 | over every run, 401 if and only if some pass is unauthorised and has no document for 401; 403 if and only if the files rules deny the first URI or some pass is denied without a document for 403; no other status |
| AnswerLaws.WhenDeclined | src/htaccess_execute.c:215-223 | the request is declined if and only if some pass allows it or the passes are used up |
| AnswerLaws.RefusedGoesToDocument | src/htaccess_execute.c:186-214 | after a refusal with a document the next pass is for the first document with that code |
| AnswerLaws.RedirectOfRun | src/htaccess_execute.c:40-78 | a redirect carries code and target, made absolute, of the directive or rule of one of the passes |
| AnswerLaws.ResolvedForms | src/htaccess_execute.c:5-39 | the file of a URI is root and URI joined by one slash |
| ExecuteLaws.RuleKeeps | src/htaccess_rewrite.c:520-606 | every rule that rewrites leaves request and state agreeing, a URI of at most T+1 bytes, a query at most T longer and the filename unchanged |
| ExecuteLaws.NextHead | src/htaccess_execute.c:154-220 | the invariant passes from one pass head to the next, whatever rules, redirections and error documents do |
| ExecuteLaws.PassHeads | src/htaccess_execute.c:147-220 | at every pass head request and state agree, the filename is that of the URI at the latest head reached initially or by a rewrite, and after a rewrite unparsed_uri splits back into the pair; after an error document exactly if its URI has no question mark |
| ExecuteLaws.RunGrowth | src/htaccess_execute.c:154-220 | if the passes of a run find at most K rules each with targets within T, the query grows by at most max_redirects*K*T in all, and URIs left by rewrites have at most T+1 bytes |
| RunLaws.RunKeeps | src/htaccess_execute.c:154-220 | a preorder on requests kept by the rules a run meets and by redirecting, applying a URI and resolving a filename holds between any two points of the run |
| ExitLaws.LeftUnchangedOrRebuilt | src/htaccess_execute.c:81-110 | wherever the handler stops, the request is exactly the one that arrived or internal with an unparsed_uri, marked invalid, made of its URI and arguments |
| ExitLaws.QueryIsNeverLost | src/htaccess_rewrite.c:384-403 | if every rule the passes meet has QSA or never rewrites, the query of request and state always ends in the original query |
| EnvLaws.FirstSetWins | src/htaccess_rewrite.c:15-22 | appending to the environment changes no value already set |
| EnvLaws.EnvironmentOnlyGrows | src/htaccess_rewrite.c:28-48 | over all passes the environment is only ever appended to |
| EnvLaws.VariableKeepsValue | src/htaccess_rewrite.c:446-479 | a variable once set keeps its value for the rest of the request |
| Worker.Handle | src/ngx_http_htaccess_module.c:183-196 | the handler declines where the module is off, leaving the request and the cache alone, and else answers and leaves the request as without a cache, files taken as values |
| Worker.ServeAll | src/ngx_http_htaccess_module.c:163-196 | through a worker's whole life every request is answered, and left to nginx, as if there were no cache, files taken as values; the cache goes through exactly the loads of all requests |
| Worker.WhenVisitIsIntact | src/htaccess_cache.c:14-34 | a request finds every file it has merged alive if and only if none of its loads unlinks one that an earlier of them returned |
| IntactLaws.WalkLoadCount | src/htaccess_walk.c:343-398 | a walk makes one load for the root and one for every slash of the URI behind the first byte |
| IntactLaws.RequestLoadCount | src/htaccess_execute.c:154-156 | a request's loads through the cache are those of its passes, all of them or none as the location caches or not |
| IntactLaws.EveryPassIsIntact | src/htaccess_execute.c:154-220 | if a request is intact then so is the walk of each of its passes, and what earlier passes have merged |
| IntactLaws.FreshVisitIsIntact | src/htaccess_walk.c:324-419 | a request with at most as many loads as the capacity, none stale, is intact |
| IntactLaws.VisitOfLongQueueIsIntact | src/htaccess_walk.c:324-419 | a request that finds three times as many entries linked as it makes loads is intact, whatever has been edited |
| IntactLaws.EditedFileBreaksVisit | src/htaccess_walk.c:345-398 | for any capacity from 2 and any decisions, of two equal requests one directory below the root the second is not intact if only the inner file changed in between |

## Left out

- Configuration slots, phase registration and process start of src/ngx_http_htaccess_module.c, beyond creating the cache: no logic to prove.
- Regular expressions, crypt, stat, open and read: parameters. Allocation is taken to succeed.
- Execute.HandleRequest: as for `Worker.ServeAll`; besides, a single condition, files rules, redirections and the authorisation verdict are parameters without side effects, one set for each pass, so within a pass a file test gives one answer for one state of the request.
- Parser.ParseRewriteCond: the classification of test string and operator (src/htaccess_parser.c:109-181) is left to the parameter that decides a condition.
- src/htaccess_headers.c: response headers and the options check do not influence the answer of `htaccess_execute`.
- Parser.PushDirective: where the C code reads the argument of a directive that has none, its behaviour is undefined; the model marks the parse `Unpredictable` and the walk treats such a file as one that does not parse.
- Walk.MergedContext.MergeParsed: parsed files are values, so that marks land on per-request copies and never on cached files holds by construction; the directory is pushed when complete instead of first.
- Cache.LruCache.Evict: destroying the pool of an evicted file is not modelled; Lifetimes and IntactLaws say when that happens to a file in use.
- Worker.ServeAll: parsed files are values, so the answers of requests that are not `VisitIntact`, which go on using a destroyed file, are not modelled.
- Worker.Handle: the same, for one request.
- Execute.TakePass: the same, for one pass.
- Walk.BuildMergedCtx: the same, for one walk.
- Rewrite.MatchRule: the compiled expression kept in a rule copy is not stored; compiling is a function of pattern and case flag.
- Widths of sizes and counts: lengths are unbounded, except that redirect codes and error codes are read as 64-bit numbers.
- dir_path of a merged directory, which nothing reads.
