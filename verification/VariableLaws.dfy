/** What each escape, capture and variable of a template stands for, read off the expansion itself. */
module VariableLaws {
  import opened Options
  import opened Bytes
  import opened Expander

  // ----- strings -----

  /** Names without NUL bytes are the same string exactly when they are equal. */
  lemma SameStringIsEquality(a: Text, b: Text)
    requires NUL !in a && NUL !in b
    ensures SameString(a, b) <==> a == b
  {
    assert IndexFrom(a, 0, NUL) == |a|;
    assert a[..|a|] == a;
    assert |a| == |b| ==> b[..|a|] == b;
  }

  /** Two bytes are the same letter in either case, or the same byte. */
  predicate SameLetter(x: Byte, y: Byte) {
    || x == y
    || (0x41 <= x <= 0x5A && y == x + 0x20)
    || (0x41 <= y <= 0x5A && x == y + 0x20)
  }

  predicate SameLetters(s: Text, t: Text) {
    |s| == |t| && forall k :: 0 <= k < |s| ==> SameLetter(s[k], t[k])
  }

  lemma FoldedAlike(s: Text, t: Text)
    ensures Fold(s) == Fold(t) <==> SameLetters(s, t)
  {
    assert forall k :: 0 <= k < |s| && k < |t| ==> (Fold(s)[k] == Fold(t)[k] <==> SameLetter(s[k], t[k]));
  }

  /** A text starts with a word if it is that word in any case followed by anything. */
  lemma StartsWithWord(word: Text, spelt: Text, rest: Text)
    requires SameLetters(spelt, word)
    ensures StartsWithNoCase(spelt + rest, word)
  {
    assert (spelt + rest)[..|word|] == spelt;
    FoldedAlike(spelt, word);
  }

  /** Nor does it start with another word that differs from it at some position. */
  lemma StartsOtherwise(word: Text, spelt: Text, rest: Text, other: Text, k: nat)
    requires SameLetters(spelt, word) && k < |word| && k < |other| && !SameLetter(word[k], other[k])
    ensures !StartsWithNoCase(spelt + rest, other)
  {
    var t := spelt + rest;
    if |other| <= |t| {
      FoldedAlike(t[..|other|], other);
      assert t[..|other|][k] == spelt[k] && SameLetter(spelt[k], word[k]);
    }
  }

  // ----- one item, anywhere in a template -----

  /** `t` expands to `value` exactly when that fits the buffer. */
  predicate ExpandsTo(vars: Vars, t: Text, m: Match, value: Text)
    requires m.Valid()
  {
    Expanded(vars, t, m) == if |value| <= 4 * |t| + 256 then Some(value) else None
  }

  lemma OneItem(vars: Vars, t: Text, m: Match, item: Item)
    requires m.Valid() && Items(t) == Some([item])
    ensures ExpandsTo(vars, t, m, Render1(vars, m, item))
  {
    assert [item][1..] == [];
    assert Render(vars, m, [item]) == Render1(vars, m, item) + [] == Render1(vars, m, item);
  }

  lemma NoItems()
    ensures Items([]) == Some([])
  {
  }

  function Reference(name: Text): Text {
    [PERCENT, OPEN_BRACE] + name + [CLOSE_BRACE]
  }

  lemma ReferenceIsVariable(vars: Vars, name: Text, m: Match)
    requires m.Valid() && CLOSE_BRACE !in name
    ensures ExpandsTo(vars, Reference(name), m, Variable(vars, name))
  {
    hide Variable, Items;
    PrintedItemIsRead(VariableRef(name), []);
    NoItems();
    assert PrintItem(VariableRef(name)) + [] == Reference(name) && [VariableRef(name)] + [] == [VariableRef(name)];
    OneItem(vars, Reference(name), m, VariableRef(name));
  }

  /**
   A template is read from left to right: what it expands to is what the item in front expands
   to, followed by what the rest does.
   */
  lemma ItemThenRest(vars: Vars, item: Item, rest: Text, m: Match)
    requires m.Valid() && Printable(item)
    ensures var first, later := Expansion(vars, PrintItem(item), m), Expansion(vars, rest, m);
            && first.Some?
            && Expansion(vars, PrintItem(item) + rest, m)
            == if later.None? then None else Some(first.value + later.value)
  {
    hide Variable, Items, Render1, PrintItem;
    PrintedItemIsRead(item, rest);
    PrintedItemIsRead(item, []);
    NoItems();
    assert PrintItem(item) + [] == PrintItem(item);
    assert Expansion(vars, PrintItem(item), m) == Some(Render(vars, m, [item]));
    if Items(rest).Some? {
      RenderConcat(vars, m, [item], Items(rest).value);
    }
  }

  // ----- the variables -----

  /** `%{REQUEST_URI}`, in any case and whatever follows the name, is the URI. */
  lemma RequestUriExpands(vars: Vars, spelt: Text, rest: Text, m: Match)
    requires m.Valid() && CLOSE_BRACE !in spelt + rest && SameLetters(spelt, Ascii("REQUEST_URI"))
    ensures ExpandsTo(vars, Reference(spelt + rest), m, vars.uri)
  {
    hide StartsWithNoCase, ExpandsTo, Reference, SameLetters;
    var word := Ascii("REQUEST_URI");
    ReferenceIsVariable(vars, spelt + rest, m);
    StartsWithWord(word, spelt, rest);
    StartsOtherwise(word, spelt, rest, Ascii("ENV:"), 0);
    StartsOtherwise(word, spelt, rest, Ascii("HTTP_HOST"), 0);
    StartsOtherwise(word, spelt, rest, Ascii("HTTP:"), 0);
    StartsOtherwise(word, spelt, rest, Ascii("QUERY_STRING"), 0);
    StartsOtherwise(word, spelt, rest, Ascii("REQUEST_FILENAME"), 8);
  }

  /** `%{REQUEST_FILENAME}` is the file name. */
  lemma RequestFilenameExpands(vars: Vars, spelt: Text, rest: Text, m: Match)
    requires m.Valid() && CLOSE_BRACE !in spelt + rest && SameLetters(spelt, Ascii("REQUEST_FILENAME"))
    ensures ExpandsTo(vars, Reference(spelt + rest), m, vars.filename)
  {
    hide StartsWithNoCase, ExpandsTo, Reference, SameLetters;
    var word := Ascii("REQUEST_FILENAME");
    ReferenceIsVariable(vars, spelt + rest, m);
    StartsWithWord(word, spelt, rest);
    StartsOtherwise(word, spelt, rest, Ascii("ENV:"), 0);
    StartsOtherwise(word, spelt, rest, Ascii("HTTP_HOST"), 0);
    StartsOtherwise(word, spelt, rest, Ascii("HTTP:"), 0);
    StartsOtherwise(word, spelt, rest, Ascii("QUERY_STRING"), 0);
  }

  /** `%{QUERY_STRING}` is the query. */
  lemma QueryStringExpands(vars: Vars, spelt: Text, rest: Text, m: Match)
    requires m.Valid() && CLOSE_BRACE !in spelt + rest && SameLetters(spelt, Ascii("QUERY_STRING"))
    ensures ExpandsTo(vars, Reference(spelt + rest), m, vars.queryString)
  {
    hide StartsWithNoCase, ExpandsTo, Reference, SameLetters;
    var word := Ascii("QUERY_STRING");
    ReferenceIsVariable(vars, spelt + rest, m);
    StartsWithWord(word, spelt, rest);
    StartsOtherwise(word, spelt, rest, Ascii("ENV:"), 0);
    StartsOtherwise(word, spelt, rest, Ascii("HTTP_HOST"), 0);
    StartsOtherwise(word, spelt, rest, Ascii("HTTP:"), 0);
  }

  /** `%{HTTP_HOST}` is the host. */
  lemma HttpHostExpands(vars: Vars, spelt: Text, rest: Text, m: Match)
    requires m.Valid() && CLOSE_BRACE !in spelt + rest && SameLetters(spelt, Ascii("HTTP_HOST"))
    ensures ExpandsTo(vars, Reference(spelt + rest), m, vars.host)
  {
    hide StartsWithNoCase, ExpandsTo, Reference, SameLetters;
    var word := Ascii("HTTP_HOST");
    ReferenceIsVariable(vars, spelt + rest, m);
    StartsWithWord(word, spelt, rest);
    StartsOtherwise(word, spelt, rest, Ascii("ENV:"), 0);
  }

  /** No entry before `k` has the name, and entry `k` has it. */
  predicate FirstNamed(entries: seq<NameValue>, same: (Text, Text) -> bool, name: Text, k: nat) {
    k < |entries| && same(entries[k].name, name) && forall j :: 0 <= j < k ==> !same(entries[j].name, name)
  }

  predicate NoneNamed(entries: seq<NameValue>, same: (Text, Text) -> bool, name: Text) {
    forall j :: 0 <= j < |entries| ==> !same(entries[j].name, name)
  }

  lemma {:induction false} HeaderIsFirst(headers: seq<NameValue>, name: Text, k: nat)
    ensures FirstNamed(headers, SameStringNoCase, name, k) ==> HeaderValue(headers, name) == Some(headers[k].value)
    ensures NoneNamed(headers, SameStringNoCase, name) ==> HeaderValue(headers, name) == None
    decreases |headers|
  {
    hide SameStringNoCase;
    if headers == [] {
    } else if k > 0 && !SameStringNoCase(headers[0].name, name) {
      assert forall j :: 0 <= j < |headers| - 1 ==> headers[1..][j] == headers[j + 1];
      HeaderIsFirst(headers[1..], name, k - 1);
    } else {
      assert forall j :: 0 <= j < |headers| - 1 ==> headers[1..][j] == headers[j + 1];
      HeaderIsFirst(headers[1..], name, 0);
    }
  }

  lemma {:induction false} EnvIsFirst(env: seq<NameValue>, name: Text, k: nat)
    ensures FirstNamed(env, SameString, name, k) ==> EnvValue(env, name) == Some(env[k].value)
    ensures NoneNamed(env, SameString, name) ==> EnvValue(env, name) == None
    decreases |env|
  {
    hide SameString;
    if env == [] {
    } else if k > 0 && !SameString(env[0].name, name) {
      assert forall j :: 0 <= j < |env| - 1 ==> env[1..][j] == env[j + 1];
      EnvIsFirst(env[1..], name, k - 1);
    } else {
      assert forall j :: 0 <= j < |env| - 1 ==> env[1..][j] == env[j + 1];
      EnvIsFirst(env[1..], name, 0);
    }
  }

  lemma HttpIsHeader(vars: Vars, spelt: Text, name: Text, m: Match)
    requires m.Valid() && CLOSE_BRACE !in spelt + name && SameLetters(spelt, Ascii("HTTP:"))
    ensures ExpandsTo(vars, Reference(spelt + name), m, HeaderOrHost(vars, name))
  {
    hide StartsWithNoCase, ExpandsTo, Reference, HeaderOrHost;
    var word := Ascii("HTTP:");
    ReferenceIsVariable(vars, spelt + name, m);
    StartsWithWord(word, spelt, name);
    StartsOtherwise(word, spelt, name, Ascii("ENV:"), 0);
    StartsOtherwise(word, spelt, name, Ascii("HTTP_HOST"), 4);
    assert (spelt + name)[5..] == name;
  }

  /** `%{HTTP:name}` is the first header of that name in any case. */
  lemma HttpHeaderExpands(vars: Vars, spelt: Text, name: Text, m: Match, k: nat)
    requires m.Valid() && CLOSE_BRACE !in spelt + name && SameLetters(spelt, Ascii("HTTP:"))
    requires FirstNamed(vars.headers, SameStringNoCase, name, k)
    ensures ExpandsTo(vars, Reference(spelt + name), m, vars.headers[k].value)
  {
    hide SameLetters, Reference, ExpandsTo, SameStringNoCase;
    HttpIsHeader(vars, spelt, name, m);
    HeaderIsFirst(vars.headers, name, k);
  }

  /** Without such a header it is the host if the name is Host in any case, and else empty. */
  lemma HttpHeaderAbsent(vars: Vars, spelt: Text, name: Text, m: Match)
    requires m.Valid() && CLOSE_BRACE !in spelt + name && SameLetters(spelt, Ascii("HTTP:"))
    requires NoneNamed(vars.headers, SameStringNoCase, name)
    ensures ExpandsTo(vars, Reference(spelt + name), m, if SameLetters(name, Ascii("Host")) then vars.host else [])
  {
    hide Reference, ExpandsTo;
    HttpIsHeader(vars, spelt, name, m);
    HeaderIsFirst(vars.headers, name, 0);
    HostIsName(name);
  }

  lemma HostIsName(name: Text)
    ensures SameStringNoCase(name, Ascii("Host")) <==> SameLetters(name, Ascii("Host"))
  {
    var a, b := Fold(name), Fold(Ascii("Host"));
    FoldedAlike(name, Ascii("Host"));
    if |a| == |b| {
      assert NUL !in b;
      var n := IndexFrom(a, 0, NUL);
      if n == |a| {
        assert a[..n] == a && b[..n] == b;
      }
    }
  }

  lemma EnvIsVariable(vars: Vars, spelt: Text, name: Text, m: Match)
    requires m.Valid() && CLOSE_BRACE !in spelt + name && SameLetters(spelt, Ascii("ENV:"))
    ensures ExpandsTo(vars, Reference(spelt + name), m, EnvValue(vars.env, name).GetOr([]))
  {
    hide StartsWithNoCase, ExpandsTo, Reference, EnvValue;
    ReferenceIsVariable(vars, spelt + name, m);
    StartsWithWord(Ascii("ENV:"), spelt, name);
    assert (spelt + name)[4..] == name;
  }

  /** `%{ENV:name}` is the value set first for that name, and empty if none is set. */
  lemma EnvVariableExpands(vars: Vars, spelt: Text, name: Text, m: Match, k: nat)
    requires m.Valid() && CLOSE_BRACE !in spelt + name && SameLetters(spelt, Ascii("ENV:"))
    ensures FirstNamed(vars.env, SameString, name, k) ==>
              ExpandsTo(vars, Reference(spelt + name), m, vars.env[k].value)
    ensures NoneNamed(vars.env, SameString, name) ==> ExpandsTo(vars, Reference(spelt + name), m, [])
  {
    hide SameLetters, Reference, ExpandsTo, SameString;
    EnvIsVariable(vars, spelt, name, m);
    EnvIsFirst(vars.env, name, k);
  }

  /** The text starts with the word in some case. */
  predicate Begins(t: Text, word: Text) {
    |word| <= |t| && SameLetters(t[..|word|], word)
  }

  /** A variable that starts with none of the names is empty. */
  lemma UnknownVariableIsEmpty(vars: Vars, name: Text, m: Match)
    requires m.Valid() && CLOSE_BRACE !in name
    requires !Begins(name, Ascii("ENV:")) && !Begins(name, Ascii("HTTP_HOST")) && !Begins(name, Ascii("HTTP:"))
    requires !Begins(name, Ascii("QUERY_STRING")) && !Begins(name, Ascii("REQUEST_FILENAME"))
    requires !Begins(name, Ascii("REQUEST_URI"))
    ensures ExpandsTo(vars, Reference(name), m, [])
  {
    hide ExpandsTo, Reference;
    ReferenceIsVariable(vars, name, m);
    BeginsIsStarts(name, Ascii("ENV:"));
    BeginsIsStarts(name, Ascii("HTTP_HOST"));
    BeginsIsStarts(name, Ascii("HTTP:"));
    BeginsIsStarts(name, Ascii("QUERY_STRING"));
    BeginsIsStarts(name, Ascii("REQUEST_FILENAME"));
    BeginsIsStarts(name, Ascii("REQUEST_URI"));
    hide Begins, StartsWithNoCase;
  }

  lemma BeginsIsStarts(t: Text, word: Text)
    ensures StartsWithNoCase(t, word) <==> Begins(t, word)
  {
    if |word| <= |t| {
      FoldedAlike(t[..|word|], word);
    }
  }

  // ----- captures and bytes -----

  /** `$n` is the n-th captured substring, and empty if that group took no part or there is none. */
  lemma CaptureExpands(vars: Vars, n: nat, m: Match)
    requires m.Valid() && n <= 9
    ensures ExpandsTo(vars, [DOLLAR, DIGIT_0 + n as Byte], m,
                      if 2 * n + 1 < |m.offsets| && m.offsets[2 * n] >= 0
                      then m.subject[m.offsets[2 * n]..m.offsets[2 * n + 1]] else [])
  {
    hide Items, ExpandsTo;
    PrintedItemIsRead(Capture(n), []);
    NoItems();
    var t := [DOLLAR, DIGIT_0 + n as Byte];
    assert PrintItem(Capture(n)) + [] == t && [Capture(n)] + [] == [Capture(n)];
    OneItem(vars, t, m, Capture(n));
  }

  /** A backslash before any byte gives that byte. */
  lemma EscapeExpands(vars: Vars, b: Byte, m: Match)
    requires m.Valid()
    ensures Expanded(vars, [BACKSLASH, b], m) == Some([b])
  {
    hide Items;
    PrintedItemIsRead(Literal(b), []);
    NoItems();
    assert PrintItem(Literal(b)) + [] == [BACKSLASH, b] && [Literal(b)] + [] == [Literal(b)];
    OneItem(vars, [BACKSLASH, b], m, Literal(b));
  }

  /** A byte at the head of `t` that introduces nothing: no escape, no capture, no variable. */
  predicate StandsAlone(t: Text) {
    && t != []
    && (t[0] == BACKSLASH ==> |t| == 1)
    && (t[0] == DOLLAR ==> |t| == 1 || !(DIGIT_0 <= t[1] <= DIGIT_9))
    && (t[0] == PERCENT ==> |t| == 1 || t[1] != OPEN_BRACE)
  }

  /** Such a byte is copied: backslash at the end, dollar before no digit, percent before no brace. */
  lemma LoneByteIsCopied(vars: Vars, t: Text, m: Match)
    requires m.Valid() && StandsAlone(t)
    ensures var rest := Expansion(vars, t[1..], m);
            Expansion(vars, t, m) == if rest.None? then None else Some([t[0]] + rest.value)
  {
    assert Items(t) == Prepend(Literal(t[0]), Items(t[1..]));
    if Items(t[1..]).Some? {
      var rest := Items(t[1..]).value;
      RenderConcat(vars, m, [Literal(t[0])], rest);
      RenderLiterals(vars, m, [t[0]]);
      assert Literals([t[0]]) == [Literal(t[0])] by {
        assert [t[0]][1..] == [];
      }
    }
  }

  /** A variable that is never closed makes the whole template fail. */
  lemma UnclosedVariableFails(vars: Vars, t: Text, m: Match)
    requires m.Valid() && |t| >= 2 && t[0] == PERCENT && t[1] == OPEN_BRACE && CLOSE_BRACE !in t[2..]
    ensures Expanded(vars, t, m) == None
  {
    assert forall k :: 2 <= k < |t| ==> t[k] in t[2..];
    assert IndexFrom(t, 2, CLOSE_BRACE) == |t|;
  }
}
