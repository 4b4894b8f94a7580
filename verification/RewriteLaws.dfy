/** What one rewrite guarantees about the URI, the query string and their lengths. */
module RewriteLaws {
  import opened Bytes
  import opened Directives
  import opened Expander
  import opened Rewrite

  // ----- relative URIs -----

  /** `prefix` is the URL of a directory on the way to `uri`. */
  predicate IsPrefixDirectory(prefix: Text, uri: Text) {
    prefix < uri && uri[|prefix|] == SLASH
  }

  /** The directory and the relative URI put together give the URI back, except for the request of the root itself. */
  lemma RelativeUriRebuilds(uri: Text, prefix: Text)
    requires IsPrefixDirectory(prefix, uri)
    ensures prefix + [SLASH] + RelativeUri(uri, prefix) == uri <==> uri != [SLASH]
  {
    if |uri| > 1 && prefix == [] {
      assert uri == [SLASH] + uri[1..];
    } else if prefix != [] {
      assert uri == prefix + [SLASH] + uri[|prefix| + 1..];
    }
  }

  // ----- targets -----

  lemma FirstByteOfExpansion(vars: Vars, t: Text, m: Match)
    requires m.Valid() && t != [] && Plain(t[0]) && Expanded(vars, t, m).Some?
    ensures Expanded(vars, t, m).value != [] && Expanded(vars, t, m).value[0] == t[0]
  {
    assert t == [t[0]] + t[1..];
    PlainPrefixIsCopied(vars, [t[0]], t[1..], m);
  }

  lemma SchemeIsCopied(vars: Vars, t: Text, scheme: Text, m: Match)
    requires m.Valid() && AllPlain(scheme) && scheme <= t && Expanded(vars, t, m).Some?
    ensures scheme <= Expanded(vars, t, m).value
  {
    assert t == scheme + t[|scheme|..];
    PlainPrefixIsCopied(vars, scheme, t[|scheme|..], m);
  }

  /** The scheme an absolute URL starts with. */
  function Scheme(t: Text): (s: Text)
    requires IsUrl(t)
    ensures s <= t && AllPlain(s)
  {
    if Ascii("http://") <= t then Ascii("http://") else Ascii("https://")
  }

  /**
   A substitution with a scheme never gets the rewrite base: whatever the base and whatever it
   captures, even nothing behind the scheme, the target is the expansion and keeps the scheme.
   */
  lemma UrlTargetKeepsScheme(vars: Vars, rule: Rule, base: Text, m: Match)
    requires m.Valid() && IsUrl(rule.substitution) && Expanded(vars, rule.substitution, m).Some?
    ensures var first := Expanded(vars, rule.substitution, m).value;
            var target := Target(vars, rule, base, m, first);
            target == first && Scheme(rule.substitution) <= target
  {
    hide Scheme, Expanded;
    SchemeIsCopied(vars, rule.substitution, Scheme(rule.substitution), m);
    UrlIsNoOther(rule.substitution);
  }

  lemma UrlIsNoOther(t: Text)
    requires IsUrl(t)
    ensures !IsDash(t) && t[0] != SLASH
  {
  }

  /**
   With a base of plain bytes, the second expansion of a relative target never fails, and
   the target is the base followed by the first expansion; absolute targets are left alone.
   */
  lemma BaseIsPrepended(vars: Vars, rule: Rule, base: Text, m: Match)
    requires m.Valid() && AllPlain(base) && !IsDash(rule.substitution)
    requires Expanded(vars, rule.substitution, m).Some?
    ensures var first := Expanded(vars, rule.substitution, m).value;
            Target(vars, rule, base, m, first) ==
            if IsRelative(first) && !IsUrl(rule.substitution) then base + first else first
  {
    var t := rule.substitution;
    var first := Expanded(vars, t, m).value;
    if IsRelative(first) && !IsUrl(t) {
      if t != [] && t[0] == SLASH {
        FirstByteOfExpansion(vars, t, m);
        assert false;
      }
      ExpansionComposes(vars, base, t, m);
    }
  }

  /** A target fits the buffer for base and substitution together, even when the second expansion fails. */
  lemma TargetLength(vars: Vars, rule: Rule, base: Text, m: Match)
    requires m.Valid() && !IsDash(rule.substitution)
    requires Expanded(vars, rule.substitution, m).Some?
    ensures var first := Expanded(vars, rule.substitution, m).value;
            |Target(vars, rule, base, m, first)| <= Capacity(base + rule.substitution)
  {
    var first := Expanded(vars, rule.substitution, m).value;
    assert |first| <= Capacity(rule.substitution);
    var based := Substituted(rule.substitution, m.subject, base);
    assert |based| <= |base + rule.substitution|;
    assert Expanded(vars, based, m).Some? ==> |Expanded(vars, based, m).value| <= Capacity(based);
  }

  // ----- rewritten requests -----

  /** The two parts of a URI with a query (section 3.4 of RFC 3986). */
  function SplitQuery(u: Text): (Text, Text) {
    var q := IndexFrom(u, 0, QUESTION);
    (u[..q], if q < |u| then u[q + 1..] else [])
  }

  /** `unparsed_uri` splits back into path and query exactly when the path has no question mark. */
  lemma UnparsedSplits(uri: Text, args: Text)
    ensures SplitQuery(Unparsed(uri, args)) == (uri, args) <==> QUESTION !in uri
  {
    var u := Unparsed(uri, args);
    if QUESTION !in uri {
      IndexFromIs(u, 0, QUESTION, |uri|);
      assert u[..|uri|] == uri;
      assert args != [] ==> u[|uri| + 1..] == args;
    } else {
      var k :| 0 <= k < |uri| && uri[k] == QUESTION;
      assert u[k] == QUESTION;
      assert IndexFrom(u, 0, QUESTION) <= k;
    }
  }

  /** A rewritten URI is absolute and holds no query, so `unparsed_uri` splits back into URI and arguments. */
  lemma RewrittenIsSplit(m: Machine, target: Text, qsa: bool)
    ensures var m' := Rewritten(m, target, qsa);
            && (m'.uri == [] || m'.uri[0] == SLASH)
            && QUESTION !in m'.uri
            && SplitQuery(m'.unparsedUri) == (m'.uri, m'.queryString)
  {
    var m' := Rewritten(m, target, qsa);
    UnparsedSplits(m'.uri, m'.queryString);
  }

  /** One rewrite lengthens the URI to at most the target plus a slash and the query by at most the target. */
  lemma RewrittenLengths(m: Machine, target: Text, qsa: bool)
    ensures var m' := Rewritten(m, target, qsa);
            && |m'.uri| <= |target| + 1
            && |m'.queryString| <= |m.queryString| + |target|
  {
  }
}
