/** The URI template matcher of uritemplate.go over rune sequences.

    `SplitsAs` says declaratively what a match is: the URI is a concatenation
    of parts, a literal contributes itself and a placeholder a non-empty run
    without '/'. `Run` is the backtracking search with pruning, the shortcut
    for a final placeholder and the shared step budget; the method `MatchSegs`
    is the source's loop form of it. The theorems relate the two and bound the
    number of steps. */
module UriMatch {

  const MAX_BACKTRACK_STEPS: int := 10_000

  datatype Segment = Literal(text: string) | Placeholder

  // ---------------------------------------------------------------- meaning

  ghost predicate NoSlash(s: string) { '/' !in s }

  ghost predicate PieceFits(seg: Segment, part: string) {
    match seg
    case Literal(text) => part == text
    case Placeholder => part != [] && NoSlash(part)
  }

  ghost function Concat(parts: seq<string>): string {
    if parts == [] then [] else parts[0] + Concat(parts[1..])
  }

  ghost predicate SplitsAs(segs: seq<Segment>, uri: string, parts: seq<string>) {
    && |parts| == |segs|
    && Concat(parts) == uri
    && forall i :: 0 <= i < |segs| ==> PieceFits(segs[i], parts[i])
  }

  /** A URI matches when some split into parts exists. */
  ghost predicate Matches(segs: seq<Segment>, uri: string) {
    exists parts: seq<string> :: SplitsAs(segs, uri, parts)
  }

  /** A match splits off the first segment. */
  lemma MatchesCons(segs: seq<Segment>, uri: string) returns (k: nat)
    requires segs != [] && Matches(segs, uri)
    ensures k <= |uri| && PieceFits(segs[0], uri[..k]) && Matches(segs[1..], uri[k..])
  {
    var parts :| SplitsAs(segs, uri, parts);
    k := |parts[0]|;
    assert uri[..k] == parts[0] && uri[k..] == Concat(parts[1..]);
    assert SplitsAs(segs[1..], uri[k..], parts[1..]);
  }

  lemma MatchesExtend(segs: seq<Segment>, uri: string, k: nat)
    requires segs != [] && k <= |uri| && PieceFits(segs[0], uri[..k]) && Matches(segs[1..], uri[k..])
    ensures Matches(segs, uri)
  {
    var rest :| SplitsAs(segs[1..], uri[k..], rest);
    var parts := [uri[..k]] + rest;
    assert parts[1..] == rest;
    assert uri == uri[..k] + uri[k..];
    assert SplitsAs(segs, uri, parts);
  }

  lemma MatchesEmpty(uri: string)
    ensures Matches([], uri) <==> uri == []
  {
    if uri == [] {
      assert SplitsAs([], uri, []);
    }
  }

  // ----------------------------------------------------------------- search

  /** The answer, the budget left behind the shared pointer, and how many
      recursive calls were made. */
  datatype Outcome = Outcome(ok: bool, left: int, calls: nat)

  /** First-rune pruning: only a literal whose first rune is not U+0000 prunes. */
  predicate Pruned(next: Segment, uri: string, start: nat) {
    && next.Literal? && next.text != [] && next.text[0] != '\0'
    && (start >= |uri| || uri[start] != next.text[0])
  }

  function Run(segs: seq<Segment>, uri: string, budget: int): Outcome
    decreases |segs|, 0
  {
    if segs == [] then Outcome(uri == [], budget, 0)
    else if segs[0].Literal? then
      var text := segs[0].text;
      if text <= uri then Run(segs[1..], uri[|text|..], budget) else Outcome(false, budget, 0)
    else if |segs| == 1 then Outcome(uri != [] && '/' !in uri, budget, 0)
    else TrySplits(segs[1..], uri, 1, budget)
  }

  function TrySplits(rest: seq<Segment>, uri: string, start: nat, budget: int): Outcome
    requires rest != [] && 1 <= start
    decreases |rest|, |uri| + 2 - start
  {
    if start > |uri| || uri[start - 1] == '/' then Outcome(false, budget, 0)
    else if budget - 1 <= 0 then Outcome(false, budget - 1, 0)
    else if Pruned(rest[0], uri, start) then TrySplits(rest, uri, start + 1, budget - 1)
    else
      var here := Run(rest, uri[start..], budget - 1);
      if here.ok then here.(calls := here.calls + 1)
      else
        var later := TrySplits(rest, uri, start + 1, here.left);
        later.(calls := here.calls + 1 + later.calls)
  }

  // -------------------------------------------------------------- exactness

  lemma PrunedNeverMatches(rest: seq<Segment>, uri: string, start: nat)
    requires rest != [] && start <= |uri| && Pruned(rest[0], uri, start)
    ensures !Matches(rest, uri[start..])
  {}

  /** The matcher is exact: a positive answer is always right, and a negative
      one is right whenever budget is left. */
  lemma {:induction false} RunExact(segs: seq<Segment>, uri: string, budget: int)
    ensures var r := Run(segs, uri, budget);
      && r.left <= budget
      && (r.ok ==> Matches(segs, uri))
      && (!r.ok && r.left > 0 ==> !Matches(segs, uri))
    decreases |segs|, 0
  {
    if segs == [] {
      MatchesEmpty(uri);
    } else if segs[0].Literal? {
      var text := segs[0].text;
      if text <= uri {
        RunExact(segs[1..], uri[|text|..], budget);
        if Run(segs, uri, budget).ok {
          assert uri[..|text|] == text;
          MatchesExtend(segs, uri, |text|);
        }
      }
      if Matches(segs, uri) {
        var k := MatchesCons(segs, uri);
        assert uri[..k] == text && text <= uri;
      }
    } else if |segs| == 1 {
      FinalPlaceholder(segs, uri);
    } else {
      TrySplitsExact(segs[1..], uri, 1, budget);
      var r := Run(segs, uri, budget);
      if r.ok {
        var k :| 1 <= k <= |uri| && SplitAt(segs[1..], uri, k);
        MatchesExtend(segs, uri, k);
      } else if Matches(segs, uri) {
        var k := MatchesCons(segs, uri);
        assert SplitAt(segs[1..], uri, k);
      }
    }
  }

  lemma FinalPlaceholder(segs: seq<Segment>, uri: string)
    requires |segs| == 1 && segs[0].Placeholder?
    ensures Matches(segs, uri) <==> uri != [] && NoSlash(uri)
  {
    if uri != [] && NoSlash(uri) {
      assert uri[..|uri|] == uri && uri[|uri|..] == [];
      MatchesEmpty([]);
      assert segs[1..] == [];
      MatchesExtend(segs, uri, |uri|);
    }
    if Matches(segs, uri) {
      var k := MatchesCons(segs, uri);
      MatchesEmpty(uri[k..]);
      assert segs[1..] == [];
      assert uri[..k] == uri;
    }
  }

  /** The placeholder before `rest` can take exactly the first k runes. */
  ghost predicate SplitAt(rest: seq<Segment>, uri: string, k: nat)
    requires k <= |uri|
  {
    NoSlash(uri[..k]) && Matches(rest, uri[k..])
  }

  lemma {:induction false} TrySplitsExact(rest: seq<Segment>, uri: string, start: nat, budget: int)
    requires rest != [] && 1 <= start <= |uri| + 1 && NoSlash(uri[..start - 1])
    ensures var r := TrySplits(rest, uri, start, budget);
      && r.left <= budget
      && (r.ok ==> exists k :: start <= k <= |uri| && SplitAt(rest, uri, k))
      && (!r.ok && r.left > 0 ==> forall k :: start <= k <= |uri| ==> !SplitAt(rest, uri, k))
    decreases |rest|, |uri| + 2 - start
  {
    if start > |uri| {
    } else if uri[start - 1] == '/' {
      forall k | start <= k <= |uri| ensures !SplitAt(rest, uri, k) {
        assert uri[..k][start - 1] == '/';
      }
    } else {
      assert uri[..start] == uri[..start - 1] + [uri[start - 1]];
      if budget - 1 <= 0 {
      } else if Pruned(rest[0], uri, start) {
        PrunedNeverMatches(rest, uri, start);
        TrySplitsExact(rest, uri, start + 1, budget - 1);
      } else {
        var here := Run(rest, uri[start..], budget - 1);
        RunExact(rest, uri[start..], budget - 1);
        if here.ok {
          assert SplitAt(rest, uri, start);
        } else {
          TrySplitsExact(rest, uri, start + 1, here.left);
        }
      }
    }
  }

  /** Raising the budget, or lowering it by less than what is left, never
      changes an answer reached with budget left. */
  lemma {:induction false} BudgetIrrelevant(segs: seq<Segment>, uri: string, budget: int, extra: int)
    requires Run(segs, uri, budget).left > 0 && Run(segs, uri, budget).left + extra > 0
    ensures var r := Run(segs, uri, budget);
      Run(segs, uri, budget + extra) == r.(left := r.left + extra)
    decreases |segs|, 0
  {
    if segs != [] {
      if segs[0].Literal? {
        if segs[0].text <= uri {
          BudgetIrrelevant(segs[1..], uri[|segs[0].text|..], budget, extra);
        }
      } else if |segs| > 1 {
        SplitsBudgetIrrelevant(segs[1..], uri, 1, budget, extra);
      }
    }
  }

  lemma {:induction false} SplitsBudgetIrrelevant(rest: seq<Segment>, uri: string, start: nat, budget: int, extra: int)
    requires rest != [] && 1 <= start && TrySplits(rest, uri, start, budget).left > 0
    requires TrySplits(rest, uri, start, budget).left + extra > 0
    ensures var r := TrySplits(rest, uri, start, budget);
      TrySplits(rest, uri, start, budget + extra) == r.(left := r.left + extra)
    decreases |rest|, |uri| + 2 - start
  {
    if start > |uri| || uri[start - 1] == '/' || budget - 1 <= 0 {
    } else if Pruned(rest[0], uri, start) {
      SplitsBudgetIrrelevant(rest, uri, start + 1, budget - 1, extra);
    } else {
      var here := Run(rest, uri[start..], budget - 1);
      RunBounds(rest, uri[start..], budget - 1);
      if here.ok {
        BudgetIrrelevant(rest, uri[start..], budget - 1, extra);
      } else {
        SplitsBounds(rest, uri, start + 1, here.left);
        BudgetIrrelevant(rest, uri[start..], budget - 1, extra);
        SplitsBudgetIrrelevant(rest, uri, start + 1, here.left, extra);
      }
    }
  }

  // ------------------------------------------------------------------- cost

  ghost function Choose(n: nat, k: nat): nat {
    if k == 0 then 1 else if n == 0 then 0 else Choose(n - 1, k - 1) + Choose(n - 1, k)
  }

  /** C(n,1) + ... + C(n,p). */
  ghost function Steps(n: nat, p: nat): nat {
    if p == 0 then 0 else Steps(n, p - 1) + Choose(n, p)
  }

  /** Placeholders that are not the last segment: the ones that search. */
  ghost function NonFinal(segs: seq<Segment>): nat {
    if |segs| <= 1 then 0 else (if segs[0].Placeholder? then 1 else 0) + NonFinal(segs[1..])
  }

  /** Pascal's rule summed over a row. */
  lemma {:induction false} StepsPascal(n: nat, p: nat)
    ensures Steps(n + 1, p + 1) == 1 + Steps(n, p) + Steps(n, p + 1)
  {
    if p == 0 {
      assert Steps(n + 1, 1) == Choose(n + 1, 1);
      assert Steps(n, 1) == Choose(n, 1);
    } else {
      StepsPascal(n, p - 1);
    }
  }

  lemma {:induction false} StepsMonotone(m: nat, n: nat, p: nat)
    requires m <= n
    ensures Steps(m, p) <= Steps(n, p)
    decreases n - m
  {
    if m < n && p > 0 {
      StepsPascal(n - 1, p - 1);
      StepsMonotone(m, n - 1, p);
    } else if p == 0 {
    }
  }

  /** Budget spent, and the number of recursive calls: every call is paid for
      by a step that left the budget positive. */
  lemma {:induction false} RunBounds(segs: seq<Segment>, uri: string, budget: int)
    ensures var r := Run(segs, uri, budget);
      && 0 <= budget - r.left <= Steps(|uri|, NonFinal(segs))
      && (budget >= 1 ==> r.calls <= budget - 1 && r.calls <= budget - r.left)
      && (budget >= 1 && r.ok ==> r.left >= 1)
    decreases |segs|, 0
  {
    if segs == [] {
    } else if segs[0].Literal? {
      var text := segs[0].text;
      if text <= uri {
        RunBounds(segs[1..], uri[|text|..], budget);
        StepsMonotone(|uri| - |text|, |uri|, NonFinal(segs[1..]));
      }
    } else if |segs| > 1 {
      SplitsBounds(segs[1..], uri, 1, budget);
    }
  }

  lemma {:induction false} SplitsBounds(rest: seq<Segment>, uri: string, start: nat, budget: int)
    requires rest != [] && 1 <= start <= |uri| + 1
    ensures var r := TrySplits(rest, uri, start, budget);
      && 0 <= budget - r.left <= Steps(|uri| + 1 - start, NonFinal(rest) + 1)
      && (budget >= 1 ==> r.calls <= budget - 1 && r.calls <= budget - r.left)
      && (budget >= 1 && r.ok ==> r.left >= 1)
      && (budget <= 0 ==> !r.ok && r.calls == 0)
    decreases |rest|, |uri| + 2 - start
  {
    if start <= |uri| {
      StepsPascal(|uri| - start, NonFinal(rest));
      if uri[start - 1] == '/' || budget - 1 <= 0 {
      } else if Pruned(rest[0], uri, start) {
        SplitsBounds(rest, uri, start + 1, budget - 1);
      } else {
        var here := Run(rest, uri[start..], budget - 1);
        RunBounds(rest, uri[start..], budget - 1);
        if !here.ok {
          SplitsBounds(rest, uri, start + 1, here.left);
        }
      }
    }
  }

  /** With the shipped budget the matcher never makes more than 9,999 recursive
      calls, and it is exact on every URI whose step count fits the budget. */
  lemma ExactWithinBudget(segs: seq<Segment>, uri: string)
    ensures Run(segs, uri, MAX_BACKTRACK_STEPS).calls <= 9_999
    ensures Steps(|uri|, NonFinal(segs)) < MAX_BACKTRACK_STEPS ==>
      (Run(segs, uri, MAX_BACKTRACK_STEPS).ok <==> Matches(segs, uri))
  {
    RunBounds(segs, uri, MAX_BACKTRACK_STEPS);
    RunExact(segs, uri, MAX_BACKTRACK_STEPS);
  }

  /** Split points looked at until the URI is decided: a pruned point counts
      one, a tried one counts one and what the rest costs there, and nothing
      after the first point behind which the rest matches. */
  ghost function Cost(segs: seq<Segment>, uri: string): nat
    decreases |segs|, 0
  {
    if segs == [] then 0
    else if segs[0].Literal? then
      (if segs[0].text <= uri then Cost(segs[1..], uri[|segs[0].text|..]) else 0)
    else if |segs| == 1 then 0 else SplitCost(segs[1..], uri, 1)
  }

  ghost function SplitCost(rest: seq<Segment>, uri: string, start: nat): nat
    requires rest != [] && 1 <= start
    decreases |rest|, |uri| + 2 - start
  {
    if start > |uri| || uri[start - 1] == '/' then 0
    else if Pruned(rest[0], uri, start) then 1 + SplitCost(rest, uri, start + 1)
    else
      1 + Cost(rest, uri[start..]) + if Matches(rest, uri[start..]) then 0 else SplitCost(rest, uri, start + 1)
  }

  /** A budget above the cost is spent by exactly the cost. */
  lemma {:induction false} RunSpendsCost(segs: seq<Segment>, uri: string, budget: int)
    requires budget > Cost(segs, uri)
    ensures Run(segs, uri, budget).left == budget - Cost(segs, uri)
    decreases |segs|, 0
  {
    if segs != [] {
      if segs[0].Literal? {
        if segs[0].text <= uri { RunSpendsCost(segs[1..], uri[|segs[0].text|..], budget); }
      } else if |segs| > 1 {
        SplitsSpendCost(segs[1..], uri, 1, budget);
      }
    }
  }

  lemma {:induction false} SplitsSpendCost(rest: seq<Segment>, uri: string, start: nat, budget: int)
    requires rest != [] && 1 <= start && budget > SplitCost(rest, uri, start)
    ensures TrySplits(rest, uri, start, budget).left == budget - SplitCost(rest, uri, start)
    decreases |rest|, |uri| + 2 - start
  {
    if start > |uri| || uri[start - 1] == '/' {
    } else if Pruned(rest[0], uri, start) {
      SplitsSpendCost(rest, uri, start + 1, budget - 1);
    } else {
      RunSpendsCost(rest, uri[start..], budget - 1);
      RunExact(rest, uri[start..], budget - 1);
      var here := Run(rest, uri[start..], budget - 1);
      if !here.ok { SplitsSpendCost(rest, uri, start + 1, here.left); }
    }
  }

  /** The cost never exceeds the binomial sum. */
  lemma CostBounded(segs: seq<Segment>, uri: string)
    ensures Cost(segs, uri) <= Steps(|uri|, NonFinal(segs))
  {
    RunSpendsCost(segs, uri, Cost(segs, uri) + 1);
    RunBounds(segs, uri, Cost(segs, uri) + 1);
  }

  /** With any budget the matcher accepts exactly the matching URIs whose cost
      is below the budget; it never answers wrongly in any other way. */
  lemma AcceptsIff(segs: seq<Segment>, uri: string, budget: int)
    requires budget >= 1
    ensures Run(segs, uri, budget).ok <==> Matches(segs, uri) && Cost(segs, uri) < budget
  {
    RunExact(segs, uri, budget);
    if Cost(segs, uri) < budget {
      RunSpendsCost(segs, uri, budget);
    } else if Run(segs, uri, budget).ok {
      var enough := Cost(segs, uri) + 1;
      RunBounds(segs, uri, budget);
      BudgetIrrelevant(segs, uri, budget, enough - budget);
      RunSpendsCost(segs, uri, enough);
    }
  }

  lemma {:induction false} ChooseSmall(n: nat)
    ensures Choose(n, 1) == n && 2 * Choose(n, 2) == n * (n - 1)
  {
    if n > 0 {
      ChooseSmall(n - 1);
      assert Choose(n, 2) == Choose(n - 1, 1) + Choose(n - 1, 2);
    }
  }

  /** No search below one non-final placeholder; 9,999 runes with one; 140 with two. */
  lemma ExactForShortUris(segs: seq<Segment>, uri: string)
    requires
      || NonFinal(segs) == 0
      || (NonFinal(segs) == 1 && |uri| < 10_000)
      || (NonFinal(segs) == 2 && |uri| <= 140)
    ensures Run(segs, uri, MAX_BACKTRACK_STEPS).ok <==> Matches(segs, uri)
  {
    ChooseSmall(|uri|);
    assert Steps(|uri|, 1) == Choose(|uri|, 1);
    assert Steps(|uri|, 2) == Choose(|uri|, 1) + Choose(|uri|, 2);
    if NonFinal(segs) == 2 {
      SquareBound(|uri|);
    }
    ExactWithinBudget(segs, uri);
  }

  lemma SquareBound(n: nat)
    requires n <= 140
    ensures n * (n - 1) <= 140 * 139
  {}

  // ------------------------------------------------- the budget does matter

  function Xs(n: nat): string { seq(n, _ => 'x') }

  /** Past the budget exactness fails: "{a}xy" has a split of x^n y for every
      n >= 2, but once n exceeds the budget the matcher gives up first. */
  lemma LateSplitIsMissed(n: nat)
    requires n > 10_000
    ensures var segs := [Placeholder, Literal("xy")]; var uri := Xs(n) + "y";
      Matches(segs, uri) && !Run(segs, uri, MAX_BACKTRACK_STEPS).ok
  {
    var segs := [Placeholder, Literal("xy")];
    var uri := Xs(n) + "y";
    assert uri[..n - 1] == Xs(n - 1) && uri[n - 1..] == "xy";
    assert SplitsAs([Literal("xy")], "xy", ["xy"]) by {
      assert ["xy"][1..] == [] && Concat([]) == [];
      assert Concat(["xy"]) == "xy" + [];
    }
    assert segs[1..] == [Literal("xy")];
    MatchesExtend(segs, uri, n - 1);
    ExhaustedScan(n, 1, MAX_BACKTRACK_STEPS);
  }

  lemma {:induction false} ExhaustedScan(n: nat, start: nat, budget: int)
    requires 1 <= start && 1 <= budget && start + budget <= n
    ensures var r := TrySplits([Literal("xy")], Xs(n) + "y", start, budget);
      !r.ok && r.left == 0
    decreases budget
  {
    var uri := Xs(n) + "y";
    if budget > 1 {
      assert uri[start - 1] == 'x' && uri[start..][0] == 'x' && uri[start..][1] == 'x';
      assert !("xy" <= uri[start..]) by {
        assert "xy"[1] == 'y';
      }
      ExhaustedScan(n, start + 1, budget - 1);
    } else {
      assert uri[start - 1] == 'x';
    }
  }

  // --------------------------------------------------------- the loop form

  /** Compares one literal rune by rune from position uj. */
  method MatchLiteral(text: string, uri: string, uj: nat) returns (ok: bool)
    requires uj <= |uri|
    ensures ok <==> text <= uri[uj..]
  {
    var k := 0;
    while k < |text|
      invariant k <= |text| && uj + k <= |uri|
      invariant forall i :: 0 <= i < k ==> uri[uj + i] == text[i]
    {
      if uj + k >= |uri| || uri[uj + k] != text[k] {
        if uj + k < |uri| {
          assert uri[uj..][k] != text[k];
        }
        return false;
      }
      k := k + 1;
    }
    assert uri[uj..][..|text|] == text;
    return true;
  }

  /** The source's form: positions si and uj advance in place and the budget
      is passed in and handed back. */
  method MatchSegs(segs: seq<Segment>, uri: string, si0: nat, uj0: nat, budget: int)
    returns (ok: bool, left: int, ghost calls: nat)
    requires si0 <= |segs| && uj0 <= |uri|
    ensures ok == Run(segs[si0..], uri[uj0..], budget).ok && left == Run(segs[si0..], uri[uj0..], budget).left
    ensures calls == Run(segs[si0..], uri[uj0..], budget).calls
    decreases |segs| - si0, 0
  {
    var si, uj := si0, uj0;
    left, calls := budget, 0;
    while si < |segs|
      invariant si0 <= si <= |segs| && uj0 <= uj <= |uri|
      invariant Run(segs[si..], uri[uj..], budget) == Run(segs[si0..], uri[uj0..], budget)
    {
      var seg := segs[si];
      assert segs[si..][1..] == segs[si + 1..];
      if seg.Literal? {
        var same := MatchLiteral(seg.text, uri, uj);
        if !same {
          return false, left, 0;
        }
        assert uri[uj..][|seg.text|..] == uri[uj + |seg.text|..];
        uj := uj + |seg.text|;
        si := si + 1;
        continue;
      }
      si := si + 1;
      if si >= |segs| {
        ok := uj < |uri|;
        var k := uj;
        while k < |uri|
          invariant uj <= k <= |uri|
          invariant ok <==> uj < |uri| && '/' !in uri[uj..k]
        {
          assert uri[uj..k + 1] == uri[uj..k] + [uri[k]];
          if uri[k] == '/' { ok := false; }
          k := k + 1;
        }
        assert uri[uj..k] == uri[uj..];
        return ok, left, 0;
      }
      ok, left, calls := MatchPlaceholder(segs, uri, si, uj, budget);
      return;
    }
    assert segs[si..] == [];
    return uj == |uri|, left, 0;
  }

  /** The split loop of a placeholder that is not last. */
  method MatchPlaceholder(segs: seq<Segment>, uri: string, si: nat, uj: nat, budget: int)
    returns (ok: bool, left: int, ghost calls: nat)
    requires 0 < si < |segs| && uj <= |uri|
    ensures var r := TrySplits(segs[si..], uri[uj..], 1, budget); ok == r.ok && left == r.left
    ensures calls == TrySplits(segs[si..], uri[uj..], 1, budget).calls
    decreases |segs| - si, 1
  {
    left, calls := budget, 0;
    ghost var goal := TrySplits(segs[si..], uri[uj..], 1, budget);
    var start := uj + 1;
    while start <= |uri|
      invariant uj + 1 <= start <= |uri| + 1
      invariant var r := TrySplits(segs[si..], uri[uj..], start - uj, left);
        goal == r.(calls := r.calls + calls)
    {
      if uri[start - 1] == '/' { break; }
      left := left - 1;
      if left <= 0 { return false, left, calls; }
      var next := segs[si];
      if next.Literal? && next.text != [] && next.text[0] != '\0'
         && (start >= |uri| || uri[start] != next.text[0]) {
        start := start + 1;
        continue;
      }
      assert uri[uj..][start - uj..] == uri[start..];
      var here, rest; ghost var more;
      here, rest, more := MatchSegs(segs, uri, si, start, left);
      calls := calls + 1 + more;
      left := rest;
      if here { return true, left, calls; }
      start := start + 1;
    }
    return false, left, calls;
  }
}
