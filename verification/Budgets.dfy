/** BudgetFor (internal/llmcontext/budgets.go): the context budget of a model id. */
module Budgets {
  import opened Text

  datatype Tier = TierA | TierB | TierC

  datatype Budget = Budget(model: string, inputTokens: nat, outputTokens: nat, maxCatalogBytes: int, tier: Tier)

  /** The first of the longest entries of the table that are prefixes of the model. */
  function LongestPrefix(table: seq<Budget>, model: string): Option<Budget> {
    if table == [] then None
    else
      var b, rest := table[0], LongestPrefix(table[1..], model);
      if b.model <= model && (rest.None? || |b.model| >= |rest.value.model|) then Some(b) else rest
  }

  /** b is the entry that a lookup should use: a prefix of the model, and no other prefix is longer. */
  ghost predicate IsBest(table: seq<Budget>, model: string, b: Budget) {
    b in table && b.model <= model && forall c :: c in table && c.model <= model ==> |c.model| <= |b.model|
  }

  ghost predicate DistinctKeys(table: seq<Budget>) {
    forall i, j :: 0 <= i < j < |table| ==> table[i].model != table[j].model
  }

  lemma {:induction false} LongestPrefixIsBest(table: seq<Budget>, model: string)
    ensures var r := LongestPrefix(table, model);
            && (r.Some? ==> IsBest(table, model, r.value))
            && (r.None? ==> forall c :: c in table ==> !(c.model <= model))
  {
    if table != [] {
      LongestPrefixIsBest(table[1..], model);
      assert forall c :: c in table <==> c == table[0] || c in table[1..];
    }
  }

  /** Prefixes of one text of the same length are the same text. */
  lemma SamePrefix(p: string, q: string, s: string)
    requires p <= s && q <= s && |p| == |q|
    ensures p == q
  {
  }

  /** With distinct keys a lookup has one best entry. */
  lemma BestIsUnique(table: seq<Budget>, model: string, b: Budget, c: Budget)
    requires DistinctKeys(table) && IsBest(table, model, b) && IsBest(table, model, c)
    ensures b == c
  {
    SamePrefix(b.model, c.model, model);
    var i :| 0 <= i < |table| && table[i] == b;
    var j :| 0 <= j < |table| && table[j] == c;
    assert i == j;
  }

  /** The order of the table does not matter when its keys are distinct. */
  lemma OrderDoesNotMatter(table: seq<Budget>, table2: seq<Budget>, model: string)
    requires DistinctKeys(table) && forall b :: b in table <==> b in table2
    ensures LongestPrefix(table, model) == LongestPrefix(table2, model)
  {
    LongestPrefixIsBest(table, model);
    LongestPrefixIsBest(table2, model);
    var r, r2 := LongestPrefix(table, model), LongestPrefix(table2, model);
    if r.Some? && r2.Some? { BestIsUnique(table, model, r.value, r2.value); }
  }

  /** An entry that is the whole model is the longest prefix, so the exact-match pass changes nothing. */
  lemma {:induction false} ExactIsLongest(table: seq<Budget>, model: string, i: nat)
    requires i < |table| && table[i].model == model && forall j :: 0 <= j < i ==> table[j].model != model
    ensures LongestPrefix(table, model) == Some(table[i])
  {
    if i == 0 {
      LongestPrefixIsBest(table[1..], model);
    } else {
      assert table[1..][i - 1] == table[i] && forall j :: 0 <= j < i - 1 ==> table[1..][j] == table[j + 1];
      ExactIsLongest(table[1..], model, i - 1);
      assert table[0].model <= model ==> |table[0].model| < |model| by {
        if table[0].model <= model && |table[0].model| == |model| { SamePrefix(table[0].model, model, model); }
      }
    }
  }

  lemma {:induction false} LongestPrefixAppend(table: seq<Budget>, b: Budget, model: string)
    ensures var r := LongestPrefix(table, model);
            LongestPrefix(table + [b], model) ==
            if b.model <= model && (r.None? || |b.model| > |r.value.model|) then Some(b) else r
  {
    if table == [] {
      assert table + [b] == [b] && [b][1..] == [];
    } else {
      assert (table + [b])[1..] == table[1..] + [b];
      LongestPrefixAppend(table[1..], b, model);
    }
  }

  predicate SameNumbers(b: Budget, c: Budget) {
    && b.inputTokens == c.inputTokens && b.outputTokens == c.outputTokens
    && b.maxCatalogBytes == c.maxCatalogBytes && b.tier == c.tier
  }

  function Resolve(table: seq<Budget>, tierC: Budget, model: string): Budget {
    var b := LongestPrefix(table, model);
    (if b.Some? then b.value else tierC).(model := model)
  }

  /** The scan for an exact entry. */
  method FindExact(table: seq<Budget>, model: string) returns (b: Option<Budget>)
    ensures b.Some? ==> LongestPrefix(table, model) == b
    ensures b.None? ==> forall c :: c in table ==> c.model != model
  {
    for i := 0 to |table|
      invariant forall j :: 0 <= j < i ==> table[j].model != model
    {
      if table[i].model == model {
        ExactIsLongest(table, model, i);
        return Some(table[i]);
      }
    }
    b := None;
  }

  /** The scan for the longest prefix. */
  method FindPrefix(table: seq<Budget>, model: string) returns (b: Option<Budget>)
    ensures b == LongestPrefix(table, model)
  {
    b := None;
    var bestLen := -1;
    for i := 0 to |table|
      invariant b == LongestPrefix(table[..i], model)
      invariant bestLen == if b.Some? then |b.value.model| else -1
    {
      LongestPrefixAppend(table[..i], table[i], model);
      assert table[..i + 1] == table[..i] + [table[i]];
      if table[i].model <= model && |table[i].model| > bestLen {
        b := Some(table[i]);
        bestLen := |table[i].model|;
      }
    }
    assert table[..|table|] == table;
  }

  /** Exact match first, then longest prefix, then the Tier C profile; the model's own name is put in. */
  method BudgetFor(table: seq<Budget>, tierC: Budget, id: string) returns (budget: Budget)
    ensures budget == Resolve(table, tierC, TrimSpace(id))
    ensures budget.model == TrimSpace(id)
    ensures (exists b :: IsBest(table, budget.model, b) && SameNumbers(budget, b)) ||
            ((forall b :: b in table ==> !(b.model <= budget.model)) && SameNumbers(budget, tierC))
  {
    var model := TrimSpace(id);
    LongestPrefixIsBest(table, model);
    var b := FindExact(table, model);
    if b.Some? {
      return b.value.(model := model);
    }
    b := FindPrefix(table, model);
    budget := (if b.Some? then b.value else tierC).(model := model);
  }
}
