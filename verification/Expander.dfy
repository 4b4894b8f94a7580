/** The template expander (htaccess_vars.c): escapes, captures and %{variables} into a bounded buffer. */
module Expander {
  import opened Options
  import opened Bytes

  datatype NameValue = NameValue(name: Text, value: Text)

  /** What a template can refer to: the request state and the request's headers. */
  datatype Vars = Vars(uri: Text, filename: Text, queryString: Text, env: seq<NameValue>,
                       host: Text, headers: seq<NameValue>)

  // ----- look-ups -----

  /** The value set first for `name`. */
  function EnvValue(env: seq<NameValue>, name: Text): Option<Text> {
    if env == [] then None
    else if SameString(env[0].name, name) then Some(env[0].value)
    else EnvValue(env[1..], name)
  }

  /** `htaccess_env_get`. */
  method EnvGet(env: seq<NameValue>, name: Text) returns (value: Option<Text>)
    ensures value == EnvValue(env, name)
  {
    for i := 0 to |env|
      invariant EnvValue(env, name) == EnvValue(env[i..], name)
    {
      if SameString(env[i].name, name) {
        return Some(env[i].value);
      }
      assert env[i..][1..] == env[i + 1..];
    }
    return None;
  }

  function HeaderValue(headers: seq<NameValue>, name: Text): Option<Text> {
    if headers == [] then None
    else if SameStringNoCase(headers[0].name, name) then Some(headers[0].value)
    else HeaderValue(headers[1..], name)
  }

  /** `htaccess_get_http_header`; `Host` falls back on the request's server name. */
  method GetHttpHeader(vars: Vars, name: Text) returns (value: Text)
    ensures value == HeaderOrHost(vars, name)
  {
    var headers := vars.headers;
    for i := 0 to |headers|
      invariant HeaderValue(headers, name) == HeaderValue(headers[i..], name)
    {
      if SameStringNoCase(headers[i].name, name) {
        return headers[i].value;
      }
      assert headers[i..][1..] == headers[i + 1..];
    }
    if SameStringNoCase(name, Ascii("Host")) {
      return vars.host;
    }
    return [];
  }

  function HeaderOrHost(vars: Vars, name: Text): Text {
    HeaderValue(vars.headers, name).GetOr(if SameStringNoCase(name, Ascii("Host")) then vars.host else [])
  }

  /** The value of `%{name}`; an unset or unknown variable is empty. */
  function Variable(vars: Vars, name: Text): Text {
    if StartsWithNoCase(name, Ascii("ENV:")) then EnvValue(vars.env, name[4..]).GetOr([])
    else if StartsWithNoCase(name, Ascii("HTTP_HOST")) then vars.host
    else if StartsWithNoCase(name, Ascii("HTTP:")) then HeaderOrHost(vars, name[5..])
    else if StartsWithNoCase(name, Ascii("QUERY_STRING")) then vars.queryString
    else if StartsWithNoCase(name, Ascii("REQUEST_FILENAME")) then vars.filename
    else if StartsWithNoCase(name, Ascii("REQUEST_URI")) then vars.uri
    else []
  }

  /**
   A match of a regular expression: the subject and the capture offsets, two per group;
   a group that took no part has a negative start.
   */
  datatype Match = Match(subject: Text, offsets: seq<int>) {
    ghost predicate Valid() {
      forall n :: 0 <= n && 2 * n + 1 < |offsets| && offsets[2 * n] >= 0 ==>
        offsets[2 * n] <= offsets[2 * n + 1] <= |subject|
    }

    function Group(n: nat): Text
      requires Valid()
    {
      if 2 * n + 1 < |offsets| && offsets[2 * n] >= 0 then
        subject[offsets[2 * n]..offsets[2 * n + 1]]
      else
        []
    }
  }

  // ----- the meaning of a template -----

  datatype Item = Literal(b: Byte) | Capture(n: nat) | VariableRef(name: Text)

  /** The items a template consists of, or None when a `%{` is never closed. */
  function Items(t: Text): Option<seq<Item>>
    decreases |t|
  {
    if t == [] then
      Some([])
    else if t[0] == BACKSLASH && 1 < |t| then
      Prepend(Literal(t[1]), Items(t[2..]))
    else if t[0] == DOLLAR && 1 < |t| && IsDigit(t[1]) then
      Prepend(Capture((t[1] - DIGIT_0) as nat), Items(t[2..]))
    else if t[0] == PERCENT && 1 < |t| && t[1] == OPEN_BRACE then
      var close := IndexFrom(t, 2, CLOSE_BRACE);
      if close == |t| then None else Prepend(VariableRef(t[2..close]), Items(t[close + 1..]))
    else
      Prepend(Literal(t[0]), Items(t[1..]))
  }

  function Prepend(item: Item, rest: Option<seq<Item>>): Option<seq<Item>> {
    if rest.None? then None else Some([item] + rest.value)
  }

  function Render1(vars: Vars, m: Match, item: Item): Text
    requires m.Valid()
  {
    match item
    case Literal(b) => [b]
    case Capture(n) => m.Group(n)
    case VariableRef(name) => Variable(vars, name)
  }

  function Render(vars: Vars, m: Match, items: seq<Item>): Text
    requires m.Valid()
  {
    if items == [] then [] else Render1(vars, m, items[0]) + Render(vars, m, items[1..])
  }

  function Capacity(t: Text): nat {
    4 * |t| + 256
  }

  /** The expansion of a template, however long. */
  function Expansion(vars: Vars, t: Text, m: Match): Option<Text>
    requires m.Valid()
  {
    var items := Items(t);
    if items.None? then None else Some(Render(vars, m, items.value))
  }

  /** The expansion, if there is one and it fits the buffer. */
  function Expanded(vars: Vars, t: Text, m: Match): (r: Option<Text>)
    requires m.Valid()
    ensures r.Some? ==> |r.value| <= Capacity(t)
  {
    var e := Expansion(vars, t, m);
    if e.Some? && |e.value| <= Capacity(t) then e else None
  }

  lemma {:induction false} RenderConcat(vars: Vars, m: Match, a: seq<Item>, b: seq<Item>)
    requires m.Valid()
    ensures Render(vars, m, a + b) == Render(vars, m, a) + Render(vars, m, b)
  {
    if a == [] {
      assert a + b == b;
    } else {
      assert (a + b)[1..] == a[1..] + b;
      RenderConcat(vars, m, a[1..], b);
    }
  }

  // ----- the expander -----

  /** `htaccess_expand_copy`: append `src` to `buf[..dst]` if it fits. */
  method ExpandCopy(buf: array<Byte>, dst: nat, src: Text) returns (ok: bool, end: nat)
    requires dst <= buf.Length
    modifies buf
    ensures ok <==> dst + |src| <= buf.Length
    ensures ok ==> end == dst + |src| && buf[..end] == old(buf[..dst]) + src
    ensures !ok ==> end == dst
  {
    if dst + |src| > buf.Length {
      return false, dst;
    }
    end := CopyTo(buf, dst, src);
    return true, end;
  }

  /** The value a `%{name}` item is replaced with. */
  method VariableValue(vars: Vars, name: Text) returns (value: Text)
    ensures value == Variable(vars, name)
  {
    if StartsWithNoCase(name, Ascii("ENV:")) {
      var v := EnvGet(vars.env, name[4..]);
      value := v.GetOr([]);
    } else if StartsWithNoCase(name, Ascii("HTTP_HOST")) {
      value := vars.host;
    } else if StartsWithNoCase(name, Ascii("HTTP:")) {
      value := GetHttpHeader(vars, name[5..]);
    } else if StartsWithNoCase(name, Ascii("QUERY_STRING")) {
      value := vars.queryString;
    } else if StartsWithNoCase(name, Ascii("REQUEST_FILENAME")) {
      value := vars.filename;
    } else if StartsWithNoCase(name, Ascii("REQUEST_URI")) {
      value := vars.uri;
    } else {
      value := [];
    }
  }

  /** What is left to expand extends what has been expanded: the invariant of the expander's loop. */
  ghost predicate Resumes(t: Text, p: nat, done: seq<Item>) {
    p <= |t| &&
    Items(t) == var rest := Items(t[p..]); if rest.None? then None else Some(done + rest.value)
  }

  lemma ResumesAfter(t: Text, p: nat, done: seq<Item>, item: Item, q: nat)
    requires Resumes(t, p, done) && p < q <= |t|
    requires Items(t[p..]) == Prepend(item, Items(t[q..]))
    ensures Resumes(t, q, done + [item])
  {
    if Items(t[q..]).Some? {
      assert done + ([item] + Items(t[q..]).value) == (done + [item]) + Items(t[q..]).value;
    }
  }

  lemma OverflowIsFinal(vars: Vars, t: Text, m: Match, p: nat, done: seq<Item>, item: Item)
    requires m.Valid() && Resumes(t, p, done + [item])
    requires |Render(vars, m, done)| + |Render1(vars, m, item)| > Capacity(t)
    ensures Expanded(vars, t, m) == None
  {
    if Items(t[p..]).Some? {
      var rest := Items(t[p..]).value;
      RenderConcat(vars, m, done + [item], rest);
      RenderSnoc(vars, m, done, item);
    }
  }

  lemma RenderSnoc(vars: Vars, m: Match, done: seq<Item>, item: Item)
    requires m.Valid()
    ensures Render(vars, m, done + [item]) == Render(vars, m, done) + Render1(vars, m, item)
  {
    RenderConcat(vars, m, done, [item]);
    assert Render(vars, m, [item]) == Render1(vars, m, item) + [];
  }

  lemma ItemsAt(t: Text, p: nat)
    requires p < |t|
    ensures t[p..][0] == t[p]
    ensures p + 1 < |t| ==> t[p..][1] == t[p + 1] && t[p..][2..] == t[p + 2..]
    ensures t[p..][1..] == t[p + 1..]
  {
  }

  lemma VariableAt(t: Text, p: nat)
    requires p + 1 < |t| && t[p] == PERCENT && t[p + 1] == OPEN_BRACE
    ensures var close := IndexFrom(t, p + 2, CLOSE_BRACE);
            Items(t[p..]) == if close == |t| then None
                             else Prepend(VariableRef(t[p + 2..close]), Items(t[close + 1..]))
  {
    var close := IndexFrom(t, p + 2, CLOSE_BRACE);
    IndexFromIs(t[p..], 2, CLOSE_BRACE, close - p);
    if close < |t| {
      assert t[p..][2..close - p] == t[p + 2..close];
      assert t[p..][close - p + 1..] == t[close + 1..];
    }
  }

  /** One step of the expander's scan: the item at `p`, its value, and where the next item starts. */
  method NextItem(vars: Vars, t: Text, p: nat, m: Match)
    returns (closed: bool, value: Text, next: nat, ghost item: Item)
    requires m.Valid() && p < |t|
    ensures !closed ==> Items(t[p..]) == None
    ensures closed ==>
      && p < next <= |t|
      && Items(t[p..]) == Prepend(item, Items(t[next..]))
      && value == Render1(vars, m, item)
  {
    hide Variable, IndexFrom;
    ItemsAt(t, p);
    closed, value, next, item := true, [t[p]], p + 1, Literal(t[p]);
    if t[p] == BACKSLASH && p + 1 < |t| {
      value, next, item := [t[p + 1]], p + 2, Literal(t[p + 1]);
    } else if t[p] == DOLLAR && p + 1 < |t| && IsDigit(t[p + 1]) {
      var n := (t[p + 1] - DIGIT_0) as nat;
      value, next, item := m.Group(n), p + 2, Capture(n);
    } else if t[p] == PERCENT && p + 1 < |t| && t[p + 1] == OPEN_BRACE {
      VariableAt(t, p);
      var close := IndexFrom(t, p + 2, CLOSE_BRACE);
      if close == |t| {
        closed := false;
      } else {
        value := VariableValue(vars, t[p + 2..close]);
        next, item := close + 1, VariableRef(t[p + 2..close]);
      }
    }
  }

  /**
   `htaccess_expand`: succeeds exactly when every `%{` is closed and the expansion fits
   the buffer of 4n + 256 bytes, and then yields the expansion.
   */
  method Expand(vars: Vars, t: Text, m: Match) returns (out: Option<Text>)
    requires m.Valid()
    ensures out == Expanded(vars, t, m)
  {
    var buf := new Byte[Capacity(t)];
    var dst: nat, p: nat := 0, 0;
    ghost var done: seq<Item> := [];
    assert t[0..] == t;
    assert Items(t).Some? ==> done + Items(t).value == Items(t).value;
    while p < |t|
      invariant p <= |t| && dst <= buf.Length
      invariant Resumes(t, p, done)
      invariant buf[..dst] == Render(vars, m, done)
    {
      var closed, value, next;
      ghost var item;
      closed, value, next, item := NextItem(vars, t, p, m);
      if !closed {
        return None;
      }
      ResumesAfter(t, p, done, item, next);
      RenderSnoc(vars, m, done, item);
      var ok;
      ok, dst := ExpandCopy(buf, dst, value);
      if !ok {
        OverflowIsFinal(vars, t, m, next, done, item);
        return None;
      }
      done := done + [item];
      p := next;
    }
    assert t[p..] == [];
    assert done + [] == done;
    return Some(buf[..dst]);
  }

  // ----- laws of expansion -----

  /** A byte the expander copies whatever surrounds it. */
  predicate Plain(b: Byte) {
    b != BACKSLASH && b != DOLLAR && b != PERCENT
  }

  predicate AllPlain(t: Text) {
    forall b :: b in t ==> Plain(b)
  }

  function Literals(t: Text): seq<Item> {
    if t == [] then [] else [Literal(t[0])] + Literals(t[1..])
  }

  lemma {:induction false} RenderLiterals(vars: Vars, m: Match, t: Text)
    requires m.Valid()
    ensures Render(vars, m, Literals(t)) == t
  {
    if t == [] {
    } else {
      RenderLiterals(vars, m, t[1..]);
      assert Literals(t)[1..] == Literals(t[1..]);
      assert t == [t[0]] + t[1..];
    }
  }

  lemma PlainByteIsLiteral(t: Text)
    requires t != [] && Plain(t[0])
    ensures Items(t) == Prepend(Literal(t[0]), Items(t[1..]))
  {
  }

  lemma {:induction false} PlainPrefixIsLiteral(base: Text, t: Text)
    requires AllPlain(base)
    ensures Items(base + t) == if Items(t).None? then None else Some(Literals(base) + Items(t).value)
  {
    if base == [] {
      assert base + t == t;
      assert Items(t).Some? ==> [] + Items(t).value == Items(t).value;
    } else {
      assert base[0] in base;
      PlainPrefixIsLiteral(base[1..], t);
      PlainByteIsLiteral(base + t);
      assert (base + t)[1..] == base[1..] + t;
      if Items(t).Some? {
        var rest := Items(t).value;
        assert [Literal(base[0])] + (Literals(base[1..]) + rest) == Literals(base) + rest;
      }
    }
  }

  /** Plain bytes in front of a template are copied in front of its expansion. */
  lemma PlainPrefixIsCopied(vars: Vars, base: Text, t: Text, m: Match)
    requires m.Valid() && AllPlain(base)
    ensures var rest := Expansion(vars, t, m);
            Expansion(vars, base + t, m) == if rest.None? then None else Some(base + rest.value)
  {
    PlainPrefixIsLiteral(base, t);
    if Items(t).Some? {
      RenderConcat(vars, m, Literals(base), Items(t).value);
      RenderLiterals(vars, m, base);
    }
  }

  /**
   Expansion composes: with a base of plain bytes, expanding base ++ t cannot fail after
   expanding t succeeded, and gives base ++ that result.
   */
  lemma ExpansionComposes(vars: Vars, base: Text, t: Text, m: Match)
    requires m.Valid() && AllPlain(base)
    requires Expanded(vars, t, m).Some?
    ensures Expanded(vars, base + t, m) == Some(base + Expanded(vars, t, m).value)
  {
    PlainPrefixIsCopied(vars, base, t, m);
  }

  /** A template that denotes the given items: every literal escaped. */
  function PrintItem(item: Item): Text
    requires Printable(item)
  {
    match item
    case Literal(b) => [BACKSLASH, b]
    case Capture(n) => [DOLLAR, DIGIT_0 + n as Byte]
    case VariableRef(name) => [PERCENT, OPEN_BRACE] + name + [CLOSE_BRACE]
  }

  predicate Printable(item: Item) {
    match item
    case Literal(_) => true
    case Capture(n) => n <= 9
    case VariableRef(name) => CLOSE_BRACE !in name
  }

  function PrintItems(items: seq<Item>): Text
    requires forall i :: i in items ==> Printable(i)
  {
    if items == [] then [] else PrintItem(items[0]) + PrintItems(items[1..])
  }

  lemma PrintedItemIsRead(item: Item, rest: Text)
    requires Printable(item)
    ensures Items(PrintItem(item) + rest) == Prepend(item, Items(rest))
  {
    var t := PrintItem(item) + rest;
    if item.VariableRef? {
      var close := 2 + |item.name|;
      assert t[2..close] == item.name;
      assert t[close] == CLOSE_BRACE;
      forall k | 2 <= k < close ensures t[k] != CLOSE_BRACE {
        assert t[k] == item.name[k - 2];
      }
      IndexFromIs(t, 2, CLOSE_BRACE, close);
      assert t[close + 1..] == rest;
    } else {
      assert t[2..] == rest;
    }
  }

  /** Every list of items is the reading of some template. */
  lemma {:induction false} ItemsRoundTrip(items: seq<Item>)
    requires forall i :: i in items ==> Printable(i)
    ensures Items(PrintItems(items)) == Some(items)
  {
    if items == [] {
    } else {
      ItemsRoundTrip(items[1..]);
      assert items[0] in items;
      PrintedItemIsRead(items[0], PrintItems(items[1..]));
      assert [items[0]] + items[1..] == items;
    }
  }

  function Escaped(text: Text): Text {
    if text == [] then [] else [BACKSLASH, text[0]] + Escaped(text[1..])
  }

  /** A text with every byte escaped expands to itself: no special byte can leak through, and the buffer suffices. */
  lemma {:induction false} EscapedTextExpandsToItself(vars: Vars, text: Text, m: Match)
    requires m.Valid()
    ensures |Escaped(text)| == 2 * |text|
    ensures Expanded(vars, Escaped(text), m) == Some(text)
  {
    if text == [] {
    } else {
      EscapedTextExpandsToItself(vars, text[1..], m);
      var t := Escaped(text);
      assert t[2..] == Escaped(text[1..]);
      var rest := Items(t[2..]).value;
      assert ([Literal(text[0])] + rest)[1..] == rest;
      assert text == [text[0]] + text[1..];
    }
  }
}
