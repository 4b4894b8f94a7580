/**
 How the RewriteCond lines of a rule combine (`htaccess_match_conditions`), compared with
 the documented reading: an AND of groups, each group an OR.
 */
module Conditions {
  import opened Directives
  import opened Expander

  /** What the loop computes: each condition is joined by its own flag to everything after it. */
  predicate Nested(ors: seq<bool>, vals: seq<bool>)
    requires |ors| == |vals|
  {
    if ors == [] then true
    else if ors[0] then vals[0] || Nested(ors[1..], vals[1..])
    else vals[0] && Nested(ors[1..], vals[1..])
  }

  /** The number of conditions in the first OR group: those flagged OR and the one they lead up to. */
  function GroupLength(ors: seq<bool>): (n: nat)
    requires ors != []
    ensures 1 <= n <= |ors|
    ensures forall k :: 0 <= k < n - 1 ==> ors[k]
    ensures n < |ors| ==> !ors[n - 1]
  {
    if !ors[0] || |ors| == 1 then 1 else 1 + GroupLength(ors[1..])
  }

  /** The documented reading: every OR group has a condition that holds. */
  predicate Grouped(ors: seq<bool>, vals: seq<bool>)
    requires |ors| == |vals|
    decreases |ors|
  {
    if ors == [] then true
    else
      var n := GroupLength(ors);
      true in vals[..n] && Grouped(ors[n..], vals[n..])
  }

  function OrFlags(conds: seq<Cond>): (ors: seq<bool>)
    ensures |ors| == |conds|
  {
    seq(|conds|, i requires 0 <= i < |conds| => conds[i].orNext)
  }

  function Outcomes(conds: seq<Cond>, holds: (Cond, Vars) -> bool, vars: Vars): (vals: seq<bool>)
    ensures |vals| == |conds|
  {
    seq(|conds|, i requires 0 <= i < |conds| => holds(conds[i], vars))
  }

  predicate Satisfied(conds: seq<Cond>, holds: (Cond, Vars) -> bool, vars: Vars) {
    Nested(OrFlags(conds), Outcomes(conds, holds, vars))
  }

  /** `htaccess_match_conditions`, the test of one condition being `holds`. */
  method MatchConditions(conds: seq<Cond>, holds: (Cond, Vars) -> bool, vars: Vars) returns (ok: bool)
    ensures ok == Satisfied(conds, holds, vars)
  {
    ghost var ors, vals := OrFlags(conds), Outcomes(conds, holds, vars);
    for i := 0 to |conds|
      invariant Satisfied(conds, holds, vars) == Nested(ors[i..], vals[i..])
    {
      assert ors[i..][1..] == ors[i + 1..] && vals[i..][1..] == vals[i + 1..];
      if conds[i].orNext {
        if holds(conds[i], vars) {
          return true;
        }
      } else if !holds(conds[i], vars) {
        return false;
      }
    }
    return true;
  }

  // ----- the two readings compared -----

  /** The code accepts whatever the documentation accepts. */
  lemma {:induction false} GroupedImpliesNested(ors: seq<bool>, vals: seq<bool>)
    requires |ors| == |vals| && Grouped(ors, vals)
    ensures Nested(ors, vals)
    decreases |ors|
  {
    if ors == [] {
    } else {
      var n := GroupLength(ors);
      GroupedImpliesNested(ors[n..], vals[n..]);
      GroupHoldsThenNested(ors, vals, n);
    }
  }

  lemma {:induction false} GroupHoldsThenNested(ors: seq<bool>, vals: seq<bool>, n: nat)
    requires |ors| == |vals| && 1 <= n <= |ors| && true in vals[..n]
    requires forall k :: 0 <= k < n - 1 ==> ors[k]
    requires Nested(ors[n..], vals[n..])
    ensures Nested(ors, vals)
    decreases n
  {
    if n > 1 && !vals[0] {
      assert ors[1..][n - 1..] == ors[n..] && vals[1..][n - 1..] == vals[n..];
      assert vals[..n] == [vals[0]] + vals[1..][..n - 1];
      GroupHoldsThenNested(ors[1..], vals[1..], n - 1);
    }
  }

  /** No condition flagged OR comes last, and once one is flagged OR all further ones but the last are. */
  predicate OneFinalGroup(ors: seq<bool>) {
    var n := |ors|;
    n > 0 ==> !ors[n - 1] && forall i, j :: 0 <= i < j < n - 1 && ors[i] ==> ors[j]
  }

  lemma {:induction false} SingleGroup(ors: seq<bool>, vals: seq<bool>)
    requires |ors| == |vals| && ors != [] && !ors[|ors| - 1]
    requires forall k :: 0 <= k < |ors| - 1 ==> ors[k]
    ensures GroupLength(ors) == |ors|
    ensures Nested(ors, vals) == (true in vals)
    decreases |ors|
  {
    assert vals == [vals[0]] + vals[1..];
    if |ors| > 1 {
      SingleGroup(ors[1..], vals[1..]);
    } else {
      assert vals[1..] == [];
    }
  }

  lemma {:induction false} OneFinalGroupAgrees(ors: seq<bool>, vals: seq<bool>)
    requires |ors| == |vals| && OneFinalGroup(ors)
    ensures Nested(ors, vals) == Grouped(ors, vals)
    decreases |ors|
  {
    if ors == [] {
    } else {
      var n := GroupLength(ors);
      if ors[0] {
        SingleGroup(ors, vals);
        assert vals[..n] == vals;
      } else {
        var rest := ors[1..];
        forall i, j | 0 <= i < j < |rest| - 1 && rest[i] ensures rest[j] {
          assert rest[i] == ors[i + 1] && rest[j] == ors[j + 1];
        }
        OneFinalGroupAgrees(rest, vals[1..]);
        assert vals[..1] == [vals[0]];
      }
    }
  }

  /** Conditions holding up to one flagged OR decide the list. */
  lemma {:induction false} TrueUpToOr(ors: seq<bool>, vals: seq<bool>, i: nat)
    requires |ors| == |vals| && i < |ors| && ors[i]
    requires forall k :: 0 <= k <= i ==> vals[k]
    ensures Nested(ors, vals)
    decreases i
  {
    if i == 0 {
    } else {
      TrueUpToOr(ors[1..], vals[1..], i - 1);
    }
  }

  lemma {:induction false} DanglingOrHolds(ors: seq<bool>, vals: seq<bool>, b: nat)
    requires |ors| == |vals| && b <= |ors|
    requires forall k :: 0 <= k < b ==> vals[k]
    requires forall k :: b <= k < |ors| ==> ors[k]
    ensures Nested(ors, vals)
    decreases |ors|
  {
    if ors == [] {
    } else {
      DanglingOrHolds(ors[1..], vals[1..], if b == 0 then 0 else b - 1);
    }
  }

  /** A group boundary after which no condition holds refutes the documented reading. */
  lemma {:induction false} FalseAfterBoundary(ors: seq<bool>, vals: seq<bool>, b: nat)
    requires |ors| == |vals| && b < |ors|
    requires b > 0 ==> !ors[b - 1]
    requires forall k :: b <= k < |ors| ==> !vals[k]
    ensures !Grouped(ors, vals)
    decreases |ors|
  {
    var n := GroupLength(ors);
    if b == 0 {
    } else {
      assert n <= b;
      FalseAfterBoundary(ors[n..], vals[n..], b - n);
    }
  }

  /** The start of the last OR group. */
  function LastGroup(ors: seq<bool>): (b: nat)
    requires ors != []
    ensures b < |ors|
    ensures b > 0 ==> !ors[b - 1]
    ensures forall k :: b <= k < |ors| - 1 ==> ors[k]
  {
    if |ors| == 1 || !ors[|ors| - 2] then |ors| - 1 else LastGroup(ors[..|ors| - 1])
  }

  lemma ReadingsDiffer(ors: seq<bool>) returns (vals: seq<bool>)
    requires !OneFinalGroup(ors)
    ensures |vals| == |ors| && Nested(ors, vals) && !Grouped(ors, vals)
  {
    var n := |ors|;
    if ors[n - 1] {
      var b := LastGroup(ors);
      vals := seq(n, k => k < b);
      DanglingOrHolds(ors, vals, b);
      FalseAfterBoundary(ors, vals, b);
    } else {
      var i, j :| 0 <= i < j < n - 1 && ors[i] && !ors[j];
      vals := seq(n, k => k <= i);
      TrueUpToOr(ors, vals, i);
      FalseAfterBoundary(ors, vals, j + 1);
    }
  }

  ghost predicate ReadingsAgree(ors: seq<bool>) {
    forall vals: seq<bool> | |vals| == |ors| :: Nested(ors, vals) == Grouped(ors, vals)
  }

  /**
   The loop computes the documented AND of OR groups, whatever the conditions' outcomes,
   exactly for the lists in which no condition follows the first complete OR group and
   the last condition is not flagged OR.
   */
  lemma WhenReadingsAgree(ors: seq<bool>)
    ensures ReadingsAgree(ors) <==> OneFinalGroup(ors)
  {
    if OneFinalGroup(ors) {
      forall vals: seq<bool> | |vals| == |ors| ensures Nested(ors, vals) == Grouped(ors, vals) {
        OneFinalGroupAgrees(ors, vals);
      }
    } else {
      var vals := ReadingsDiffer(ors);
    }
  }

  // ----- lists of conditions -----

  /** The condition at `k` is the first to decide the list: flagged OR and holding, or neither. */
  predicate Decides(conds: seq<Cond>, holds: (Cond, Vars) -> bool, vars: Vars, k: nat) {
    && k < |conds| && conds[k].orNext == holds(conds[k], vars)
    && forall j :: 0 <= j < k ==> conds[j].orNext != holds(conds[j], vars)
  }

  lemma {:induction false} NestedIsDecided(ors: seq<bool>, vals: seq<bool>, k: nat)
    requires |ors| == |vals| && k <= |ors|
    requires forall j :: 0 <= j < k ==> ors[j] != vals[j]
    requires k < |ors| ==> ors[k] == vals[k]
    ensures Nested(ors, vals) <==> k == |ors| || ors[k]
    decreases k
  {
    if k == 0 {
    } else {
      NestedIsDecided(ors[1..], vals[1..], k - 1);
    }
  }

  /** A list is satisfied if and only if its first deciding condition, if it has one, is flagged OR. */
  lemma FirstDecisionCounts(conds: seq<Cond>, holds: (Cond, Vars) -> bool, vars: Vars)
    ensures Satisfied(conds, holds, vars) <==>
            forall k: nat :: Decides(conds, holds, vars, k) ==> conds[k].orNext
  {
    hide Nested;
    var ors, vals := OrFlags(conds), Outcomes(conds, holds, vars);
    var k := 0;
    while k < |conds| && conds[k].orNext != holds(conds[k], vars)
      invariant k <= |conds| && forall j :: 0 <= j < k ==> conds[j].orNext != holds(conds[j], vars)
    {
      k := k + 1;
    }
    NestedIsDecided(ors, vals, k);
    if k < |conds| {
      assert Decides(conds, holds, vars, k);
    }
  }

  /** Without OR flags all conditions must hold. */
  lemma PlainListIsConjunction(conds: seq<Cond>, holds: (Cond, Vars) -> bool, vars: Vars)
    requires forall c :: c in conds ==> !c.orNext
    ensures Satisfied(conds, holds, vars) <==> forall c :: c in conds ==> holds(c, vars)
  {
    hide Satisfied;
    FirstDecisionCounts(conds, holds, vars);
    forall k: nat | Decides(conds, holds, vars, k) ensures !conds[k].orNext && !holds(conds[k], vars) {
      assert conds[k] in conds;
    }
    if c :| c in conds && !holds(c, vars) {
      var k := 0;
      while holds(conds[k], vars)
        invariant k < |conds| && (forall j :: 0 <= j < k ==> holds(conds[j], vars))
        invariant exists j :: k <= j < |conds| && !holds(conds[j], vars)
        decreases |conds| - k
      {
        k := k + 1;
      }
      assert conds[k] in conds && Decides(conds, holds, vars, k);
    }
  }

  /** Positions `j` to `k` are joined by OR flags. */
  predicate Joined(ors: seq<bool>, j: nat, k: nat) {
    j <= k < |ors| && forall i :: j <= i < k ==> ors[i]
  }

  /** A group ends at `k`. */
  predicate EndsGroup(ors: seq<bool>, k: nat) {
    k < |ors| && (k == |ors| - 1 || !ors[k])
  }

  ghost predicate GroupHolds(ors: seq<bool>, vals: seq<bool>, k: nat)
    requires |ors| == |vals|
  {
    exists j: nat :: Joined(ors, j, k) && vals[j]
  }

  /** The documented reading by positions: wherever a group ends, one of those joined up to there holds. */
  ghost predicate EveryGroupHolds(ors: seq<bool>, vals: seq<bool>)
    requires |ors| == |vals|
  {
    forall k: nat :: EndsGroup(ors, k) ==> GroupHolds(ors, vals, k)
  }

  lemma FirstGroup(ors: seq<bool>, vals: seq<bool>)
    requires |ors| == |vals| && ors != []
    ensures var n := GroupLength(ors);
            && EndsGroup(ors, n - 1) && (GroupHolds(ors, vals, n - 1) <==> true in vals[..n])
            && forall k: nat :: EndsGroup(ors, k) ==> n - 1 <= k
  {
    var n := GroupLength(ors);
    if true in vals[..n] {
      var j: nat :| j < n && vals[..n][j];
      assert Joined(ors, j, n - 1);
    }
    if GroupHolds(ors, vals, n - 1) {
      var j: nat :| Joined(ors, j, n - 1) && vals[j];
      assert vals[..n][j];
    }
  }

  lemma JoinedShifts(ors: seq<bool>, n: nat, j: nat, k: nat)
    requires n + k < |ors| && j <= k
    ensures Joined(ors, n + j, n + k) <==> Joined(ors[n..], j, k)
  {
    var rest := ors[n..];
    assert forall i :: j <= i < k ==> rest[i] == ors[n + i];
    assert forall i :: n + j <= i < n + k ==> ors[i] == rest[i - n];
  }

  lemma JoinedStartsLater(ors: seq<bool>, n: nat, j: nat, k: nat)
    requires 1 <= n <= k && Joined(ors, j, k) && !ors[n - 1]
    ensures n <= j
  {
  }

  lemma GroupHoldsLater(ors: seq<bool>, vals: seq<bool>, n: nat, k: nat)
    requires |ors| == |vals| && 1 <= n <= k < |ors| && !ors[n - 1]
    ensures GroupHolds(ors, vals, k) <==> GroupHolds(ors[n..], vals[n..], k - n)
  {
    if GroupHolds(ors, vals, k) {
      var j: nat :| Joined(ors, j, k) && vals[j];
      JoinedStartsLater(ors, n, j, k);
      JoinedIsOrdered(ors, j, k);
      JoinedShifts(ors, n, j - n, k - n);
      assert vals[n..][j - n];
    }
    if GroupHolds(ors[n..], vals[n..], k - n) {
      var j: nat :| Joined(ors[n..], j, k - n) && vals[n..][j];
      JoinedIsOrdered(ors[n..], j, k - n);
      JoinedShifts(ors, n, j, k - n);
      assert vals[n + j];
    }
  }

  lemma LaterGroup(ors: seq<bool>, vals: seq<bool>, k: nat)
    requires |ors| == |vals| && ors != [] && GroupLength(ors) <= k < |ors|
    ensures var n := GroupLength(ors);
            && (EndsGroup(ors, k) <==> EndsGroup(ors[n..], k - n))
            && (GroupHolds(ors, vals, k) <==> GroupHolds(ors[n..], vals[n..], k - n))
  {
    hide GroupHolds;
    GroupHoldsLater(ors, vals, GroupLength(ors), k);
  }

  lemma JoinedIsOrdered(ors: seq<bool>, j: nat, k: nat)
    requires Joined(ors, j, k)
    ensures j <= k < |ors|
  {
  }

  lemma {:induction false} GroupedIsPositional(ors: seq<bool>, vals: seq<bool>)
    requires |ors| == |vals|
    ensures Grouped(ors, vals) <==> EveryGroupHolds(ors, vals)
    decreases |ors|
  {
    hide GroupHolds, EndsGroup;
    if ors == [] {
      assert forall k :: !EndsGroup(ors, k) by { NoGroups(); }
    } else {
      var n := GroupLength(ors);
      FirstGroup(ors, vals);
      GroupedIsPositional(ors[n..], vals[n..]);
      forall k: nat | n <= k < |ors|
        ensures EndsGroup(ors, k) <==> EndsGroup(ors[n..], k - n)
        ensures GroupHolds(ors, vals, k) <==> GroupHolds(ors[n..], vals[n..], k - n)
      {
        LaterGroup(ors, vals, k);
      }
      GroupsShift(ors, vals, n);
    }
  }

  lemma NoGroups()
    ensures forall k :: !EndsGroup([], k)
  {
  }

  lemma GroupsShift(ors: seq<bool>, vals: seq<bool>, n: nat)
    requires |ors| == |vals| && 1 <= n <= |ors|
    requires EndsGroup(ors, n - 1) && forall k: nat :: EndsGroup(ors, k) ==> n - 1 <= k
    requires forall k: nat :: n <= k < |ors| ==>
               && (EndsGroup(ors, k) <==> EndsGroup(ors[n..], k - n))
               && (GroupHolds(ors, vals, k) <==> GroupHolds(ors[n..], vals[n..], k - n))
    ensures EveryGroupHolds(ors, vals) <==> GroupHolds(ors, vals, n - 1) && EveryGroupHolds(ors[n..], vals[n..])
  {
    hide GroupHolds;
    if GroupHolds(ors, vals, n - 1) && EveryGroupHolds(ors[n..], vals[n..]) {
      forall k: nat | EndsGroup(ors, k) ensures GroupHolds(ors, vals, k) {
        if k >= n {
          assert EndsGroup(ors[n..], k - n);
        }
      }
    }
    if EveryGroupHolds(ors, vals) {
      forall k: nat | EndsGroup(ors[n..], k) ensures GroupHolds(ors[n..], vals[n..], k) {
        assert EndsGroup(ors[n..], (n + k) - n);
        assert EndsGroup(ors, n + k);
      }
    }
  }

  /** The documented reading of a list: up to each condition without OR, and to the last, a joined one holds. */
  ghost predicate Documented(conds: seq<Cond>, holds: (Cond, Vars) -> bool, vars: Vars) {
    forall k: nat :: k < |conds| && (k == |conds| - 1 || !conds[k].orNext) ==> CondGroupHolds(conds, holds, vars, k)
  }

  ghost predicate CondGroupHolds(conds: seq<Cond>, holds: (Cond, Vars) -> bool, vars: Vars, k: nat)
    requires k < |conds|
  {
    exists j: nat :: j <= k && holds(conds[j], vars) && AllOr(conds, j, k)
  }

  predicate AllOr(conds: seq<Cond>, j: nat, k: nat)
    requires j <= k < |conds|
  {
    forall i :: j <= i < k ==> conds[i].orNext
  }

  lemma DocumentedIsGrouped(conds: seq<Cond>, holds: (Cond, Vars) -> bool, vars: Vars)
    ensures Documented(conds, holds, vars) <==> Grouped(OrFlags(conds), Outcomes(conds, holds, vars))
  {
    hide Grouped;
    var ors, vals := OrFlags(conds), Outcomes(conds, holds, vars);
    GroupedIsPositional(ors, vals);
    forall k: nat | k < |conds|
      ensures EndsGroup(ors, k) <==> k == |conds| - 1 || !conds[k].orNext
      ensures GroupHolds(ors, vals, k) <==> CondGroupHolds(conds, holds, vars, k)
    {
      if GroupHolds(ors, vals, k) {
        var j: nat :| Joined(ors, j, k) && vals[j];
        forall i | j <= i < k ensures conds[i].orNext { assert ors[i]; }
        assert AllOr(conds, j, k);
      }
      if CondGroupHolds(conds, holds, vars, k) {
        var j: nat :| j <= k && holds(conds[j], vars) && AllOr(conds, j, k);
        assert Joined(ors, j, k);
      }
    }
  }

  /** Whatever list the documented reading accepts, the loop accepts. */
  lemma DocumentedImpliesSatisfied(conds: seq<Cond>, holds: (Cond, Vars) -> bool, vars: Vars)
    requires Documented(conds, holds, vars)
    ensures Satisfied(conds, holds, vars)
  {
    hide Documented, Grouped, Nested;
    DocumentedIsGrouped(conds, holds, vars);
    GroupedImpliesNested(OrFlags(conds), Outcomes(conds, holds, vars));
  }

  /** The last condition is not flagged OR, and once one is flagged OR all further ones but the last are. */
  predicate HasOneFinalGroup(conds: seq<Cond>) {
    var n := |conds|;
    n > 0 ==> !conds[n - 1].orNext && forall i, j :: 0 <= i < j < n - 1 && conds[i].orNext ==> conds[j].orNext
  }

  /** On such lists loop and documentation agree, whatever holds. */
  lemma ListReadingsAgree(conds: seq<Cond>, holds: (Cond, Vars) -> bool, vars: Vars)
    requires HasOneFinalGroup(conds)
    ensures Satisfied(conds, holds, vars) <==> Documented(conds, holds, vars)
  {
    hide Documented, Grouped, Nested;
    DocumentedIsGrouped(conds, holds, vars);
    OneFinalGroupAgrees(OrFlags(conds), Outcomes(conds, holds, vars));
  }

  /** On every other list of different conditions the loop accepts for some outcomes what the documentation refuses. */
  lemma ListReadingsDiffer(conds: seq<Cond>, vars: Vars) returns (holds: (Cond, Vars) -> bool)
    requires !HasOneFinalGroup(conds) && forall i, j :: 0 <= i < j < |conds| ==> conds[i] != conds[j]
    ensures Satisfied(conds, holds, vars) && !Documented(conds, holds, vars)
  {
    hide Documented, Grouped, Nested;
    var n, ors := |conds|, OrFlags(conds);
    assert !OneFinalGroup(ors) by {
      if !conds[n - 1].orNext {
        var i, j :| 0 <= i < j < n - 1 && conds[i].orNext && !conds[j].orNext;
        assert ors[i] && !ors[j];
      }
    }
    var vals := ReadingsDiffer(ors);
    holds := (c: Cond, v: Vars) => exists k :: 0 <= k < n && conds[k] == c && vals[k];
    assert Outcomes(conds, holds, vars) == vals;
    DocumentedIsGrouped(conds, holds, vars);
  }
}
