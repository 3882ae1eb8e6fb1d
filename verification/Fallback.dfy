/** The fallback chain (internal/gateway/fallback.go) over the provider registry
    (internal/gateway/gateway.go) over the retrying transport. */
module Fallback {
  import opened Text
  import opened Retry

  // ---------- model names ----------

  function SlashAt(s: string): Option<nat> {
    if s == "" then None
    else if s[0] == '/' then Some(0)
    else match SlashAt(s[1..]) case None => None case Some(i) => Some(i + 1)
  }

  datatype Split = Split(provider: string, model: string)

  /** SplitModel on an already trimmed name: the cut is at the first slash. */
  function SplitTrimmed(full: string): Outcome<Split> {
    match SlashAt(full)
    case None => Err(InvalidModel)
    case Some(i) =>
      if 0 < i < |full| - 1 then Ok(Split(full[..i], full[i + 1..])) else Err(InvalidModel)
  }

  function SplitModel(full: string): Outcome<Split> {
    SplitTrimmed(TrimSpace(full))
  }

  ghost predicate IsSplit(full: string, s: Split) {
    full == s.provider + "/" + s.model && '/' !in s.provider && s.provider != "" && s.model != ""
  }

  lemma {:induction false} SlashAtFirst(s: string, i: nat)
    ensures SlashAt(s) == Some(i) <==> i < |s| && s[i] == '/' && '/' !in s[..i]
    ensures SlashAt(s) == None <==> '/' !in s
  {
    if s != "" && s[0] != '/' {
      assert s == [s[0]] + s[1..];
      SlashAtFirst(s[1..], if i > 0 then i - 1 else 0);
      if 0 < i <= |s| { assert s[..i] == [s[0]] + s[1..][..i - 1]; }
    }
  }

  /** A name is accepted exactly when it is provider, slash, model with both parts non-empty; the provider
      has no slash and the model keeps all of its own. */
  lemma SplitIsExact(full: string, s: Split)
    ensures SplitTrimmed(full) == Ok(s) <==> IsSplit(full, s)
  {
    if SlashAt(full).Some? {
      SlashAtFirst(full, SlashAt(full).value);
      var i := SlashAt(full).value;
      assert full == full[..i] + "/" + full[i + 1..];
    } else {
      SlashAtFirst(full, 0);
    }
    if IsSplit(full, s) {
      var i := |s.provider|;
      assert full[..i] == s.provider && full[i] == '/' && full[i + 1..] == s.model;
      SlashAtFirst(full, i);
    }
  }

  // ---------- the registry ----------

  datatype Reply = Reply(model: string, content: string)

  /** `decode` is an adapter's reading of a 2xx body; it can fail. */
  datatype Registry = Registry(providers: set<string>, policy: Policy, decode: string -> Option<string>)

  datatype Dispatched = Dispatched(outcome: Outcome<Reply>, requests: nat)

  /** Registry.Dispatch against an upstream that behaves as w. */
  function Forward(r: Registry, model: string, w: World): Dispatched {
    Routed(r, SplitModel(model), w)
  }

  /** After the name has been taken apart. */
  function Routed(r: Registry, split: Outcome<Split>, w: World): Dispatched {
    match split
    case Err(e) => Dispatched(Err(e), 0)
    case Ok(s) =>
      if s.provider !in r.providers then Dispatched(Err(UnknownProvider), 0)
      else
        var ran := Run(r.policy, w);
        match ran.outcome
        case Err(e) => Dispatched(Err(e), ran.requests)
        case Ok(body) =>
          match r.decode(body)
          case None => Dispatched(Err(Plain(false)), ran.requests)
          case Some(content) => Dispatched(Ok(Reply(s.provider + "/" + s.model, content)), ran.requests)
  }

  /** A reply names the model that was asked for, in its trimmed form. */
  lemma ReplyNamesTheModel(r: Registry, full: string, w: World)
    requires Routed(r, SplitTrimmed(full), w).outcome.Ok?
    ensures Routed(r, SplitTrimmed(full), w).outcome.value.model == full
  {
    SplitIsExact(full, SplitTrimmed(full).value);
  }

  /** A failed request's error, or the decoded reply under the model's full name. */
  predicate Answers(outcome: Outcome<Reply>, ran: Outcome<string>, decode: string -> Option<string>, name: string) {
    match ran
    case Err(e) => outcome == Err(e)
    case Ok(body) =>
      match decode(body)
      case None => outcome == Err(Plain(false))
      case Some(content) => outcome == Ok(Reply(name, content))
  }

  /** A name that is no provider, slash and model makes no request. */
  lemma NoRoute(r: Registry, full: string, w: World)
    requires forall s :: !IsSplit(TrimSpace(full), s)
    ensures Forward(r, full, w) == Dispatched(Err(InvalidModel), 0)
  {
    var split := SplitModel(full);
    if split.Ok? { SplitIsExact(TrimSpace(full), split.value); }
  }

  /** What Registry.Dispatch comes to for a name: a provider that is not registered, a failed request, a reply
      that cannot be read, or the reply under the trimmed name. */
  lemma RoutingTable(r: Registry, full: string, s: Split, w: World)
    requires IsSplit(TrimSpace(full), s)
    ensures var d, ran := Forward(r, full, w), Run(r.policy, w);
            if s.provider !in r.providers then d == Dispatched(Err(UnknownProvider), 0)
            else d.requests == ran.requests && Answers(d.outcome, ran.outcome, r.decode, TrimSpace(full))
  {
    SplitIsExact(TrimSpace(full), s);
    RoutedMeans(r, s, w);
  }

  lemma RoutedMeans(r: Registry, s: Split, w: World)
    ensures var d, ran := Routed(r, Ok(s), w), Run(r.policy, w);
            if s.provider !in r.providers then d == Dispatched(Err(UnknownProvider), 0)
            else d.requests == ran.requests && Answers(d.outcome, ran.outcome, r.decode, s.provider + "/" + s.model)
  {
  }

  lemma ForwardRequestBound(r: Registry, model: string, w: World)
    ensures Forward(r, model, w).requests <= Effective(r.policy).maxAttempts
  {
    RequestBound(Effective(r.policy), w, Effective(r.policy).maxAttempts, 0);
  }

  // ---------- the chain ----------

  datatype Rule = Rule(primary: string, fallbacks: seq<string>, triggers: seq<Trigger>)

  /** An empty trigger list means any failure. */
  predicate TriggerMatches(e: Error, triggers: seq<Trigger>) {
    triggers == [] || Classify(e) in triggers
  }

  function Candidates(rule: Rule): (c: seq<string>)
    ensures |c| == 1 + |rule.fallbacks|
  {
    [rule.primary] + rule.fallbacks
  }

  /** The caller's context before the i-th candidate, and the upstream of the i-th candidate. */
  datatype Scene = Scene(dead: nat -> Option<Error>, upstream: nat -> World)

  /** What each candidate comes to when its turn comes. */
  function Prospects(r: Registry, rule: Rule, sc: Scene): (p: seq<Dispatched>)
    ensures |p| == |Candidates(rule)|
    ensures forall i: nat :: i < |p| ==> p[i] == Forward(r, Candidates(rule)[i], sc.upstream(i))
  {
    seq(|Candidates(rule)|, i requires 0 <= i < |Candidates(rule)| => Forward(r, Candidates(rule)[i], sc.upstream(i)))
  }

  /** A failure that sends the request on. */
  predicate GoesOn(d: Dispatched, triggers: seq<Trigger>) {
    d.outcome.Err? && TriggerMatches(d.outcome.error, triggers)
  }

  /** Exactly the first n candidates were tried: each before the last failed with a trigger, the context
      lived before each, and there is a reason to stop at n: the end of the list, a success or a failure
      that is no trigger, or a dead context. */
  ghost predicate TriedExactly(p: seq<Dispatched>, triggers: seq<Trigger>, dead: nat -> Option<Error>, n: nat) {
    && n <= |p|
    && (forall i: nat :: i < n ==> dead(i).None?)
    && (forall i: nat :: i + 1 < n ==> GoesOn(p[i], triggers))
    && (n == |p| || (n > 0 && !GoesOn(p[n - 1], triggers)) || dead(n).Some?)
  }

  /** The result that goes with n tried candidates. */
  function ResultAfter(p: seq<Dispatched>, rule: Rule, dead: nat -> Option<Error>, n: nat): Outcome<Reply>
    requires n <= |p|
  {
    if n > 0 && p[n - 1].outcome.Ok? then p[n - 1].outcome
    else if n < |p| && (n == 0 || GoesOn(p[n - 1], rule.triggers)) && dead(n).Some? then Err(dead(n).value)
    else if n == 0 then Err(Plain(false))
    else Err(Exhausted(rule.primary, p[n - 1].outcome.error))
  }

  /** The reply is that of the last candidate tried. Without one, the error is the dead context's if that is
      what kept the next candidate from being tried, and else it names the rule and the last failure. */
  predicate ResultMeans(p: seq<Dispatched>, rule: Rule, dead: nat -> Option<Error>, n: nat, outcome: Outcome<Reply>)
    requires n <= |p| && p != []
  {
    match outcome
    case Ok(reply) => n > 0 && p[n - 1].outcome == Ok(reply)
    case Err(e) =>
      && (n > 0 ==> p[n - 1].outcome.Err?)
      && if n < |p| && (n == 0 || rule.triggers == [] || Classify(p[n - 1].outcome.error) in rule.triggers)
         then dead(n) == Some(e)
         else e == Exhausted(rule.primary, p[n - 1].outcome.error)
  }

  /** The number of tried candidates is determined. */
  lemma TriedIsUnique(p: seq<Dispatched>, triggers: seq<Trigger>, dead: nat -> Option<Error>, n: nat, m: nat)
    requires TriedExactly(p, triggers, dead, n) && TriedExactly(p, triggers, dead, m)
    ensures n == m
  {
  }

  function Requests(p: seq<Dispatched>, n: nat): nat
    requires n <= |p|
  {
    if n == 0 then 0 else Requests(p, n - 1) + p[n - 1].requests
  }

  lemma {:induction false} RequestsBound(p: seq<Dispatched>, n: nat, max: nat)
    requires n <= |p| && forall i: nat :: i < n ==> p[i].requests <= max
    ensures Requests(p, n) <= n * max
  {
    if n > 0 {
      RequestsBound(p, n - 1, max);
      OneMore(n, max);
    }
  }

  lemma OneMore(n: int, max: int)
    ensures n * max == (n - 1) * max + max
  {
  }

  lemma MulMonotone(a: nat, b: nat, m: nat)
    requires a <= b
    ensures a * m <= b * m
  {
  }

  /** One dispatch makes at most (1 + fallbacks) * MaxAttempts upstream requests. */
  lemma RequestsCapped(r: Registry, rule: Rule, sc: Scene, n: nat, max: nat)
    requires n <= |Candidates(rule)| && max == Effective(r.policy).maxAttempts
    ensures Requests(Prospects(r, rule, sc), n) <= (1 + |rule.fallbacks|) * max
  {
    var p := Prospects(r, rule, sc);
    forall i: nat | i < n ensures p[i].requests <= max {
      ForwardRequestBound(r, Candidates(rule)[i], sc.upstream(i));
    }
    RequestsBound(p, n, max);
    MulMonotone(n, 1 + |rule.fallbacks|, max);
  }

  class Chain {
    const reg: Registry
    var rules: map<string, Rule>

    constructor (reg: Registry)
      ensures this.reg == reg && rules == map[]
    {
      this.reg := reg;
      rules := map[];
    }

    method SetRule(rule: Rule) returns (ok: bool)
      modifies this
      ensures ok <==> rule.primary != ""
      ensures rules == if ok then old(rules)[rule.primary := rule] else old(rules)
    {
      if rule.primary == "" {
        return false;
      }
      rules := rules[rule.primary := rule];
      ok := true;
    }

    method DeleteRule(primary: string)
      modifies this
      ensures rules == old(rules) - {primary}
    {
      rules := rules - {primary};
    }

    /** Walks one rule's candidates; it never looks up a second rule, so rules may name each other. */
    method Dispatch(model: string, sc: Scene) returns (outcome: Outcome<Reply>, n: nat, requests: nat)
      ensures model !in rules ==> Dispatched(outcome, requests) == Forward(reg, model, sc.upstream(0))
      ensures model in rules ==>
                var p := Prospects(reg, rules[model], sc);
                && TriedExactly(p, rules[model].triggers, sc.dead, n)
                && outcome == ResultAfter(p, rules[model], sc.dead, n)
                && ResultMeans(p, rules[model], sc.dead, n, outcome)
                && requests == Requests(p, n)
    {
      if model !in rules {
        var d := Forward(reg, model, sc.upstream(0));
        return d.outcome, 1, d.requests;
      }
      outcome, n, requests := Walk(
        rules[model], sc.dead, (m: string, i: nat) => Forward(reg, m, sc.upstream(i)), Prospects(reg, rules[model], sc));
    }
  }

  /** The walk over the candidates of one rule; `send` is the registry's Dispatch. */
  method Walk(rule: Rule, dead: nat -> Option<Error>, send: (string, nat) -> Dispatched, ghost p: seq<Dispatched>)
    returns (outcome: Outcome<Reply>, n: nat, requests: nat)
    requires |p| == |Candidates(rule)| && forall i: nat :: i < |p| ==> p[i] == send(Candidates(rule)[i], i)
    ensures TriedExactly(p, rule.triggers, dead, n)
    ensures outcome == ResultAfter(p, rule, dead, n)
    ensures requests == Requests(p, n)
    ensures ResultMeans(p, rule, dead, n, outcome)
  {
    var candidates := [rule.primary] + rule.fallbacks;
    var lastErr := Plain(false);
    n, requests := 0, 0;
    while n < |candidates|
      invariant n <= |candidates| == |p| && candidates == Candidates(rule)
      invariant requests == Requests(p, n)
      invariant forall i: nat :: i < n ==> dead(i).None?
      invariant forall i: nat :: i < n ==> GoesOn(p[i], rule.triggers) || (i + 1 == n == |p| && p[i].outcome.Err?)
      invariant n > 0 ==> p[n - 1].outcome == Err(lastErr)
    {
      if dead(n).Some? {
        return Err(dead(n).value), n, requests;
      }
      var d := send(candidates[n], n);
      assert d == p[n];
      requests := requests + d.requests;
      n := n + 1;
      if d.outcome.Ok? {
        return d.outcome, n, requests;
      }
      lastErr := d.outcome.error;
      if n == |candidates| {
        break;
      }
      if !TriggerMatches(lastErr, rule.triggers) {
        break;
      }
    }
    outcome := Err(Exhausted(rule.primary, lastErr));
  }

  /** A success carries the name of the candidate that served it, and every candidate before it failed. */
  lemma SuccessNamesTheServer(r: Registry, rule: Rule, sc: Scene, n: nat)
    requires var p := Prospects(r, rule, sc);
             TriedExactly(p, rule.triggers, sc.dead, n) && ResultAfter(p, rule, sc.dead, n).Ok?
    ensures n > 0
    ensures ResultAfter(Prospects(r, rule, sc), rule, sc.dead, n).value.model == TrimSpace(Candidates(rule)[n - 1])
    ensures forall i: nat :: i < n - 1 ==> Prospects(r, rule, sc)[i].outcome.Err?
  {
    ReplyNamesTheModel(r, TrimSpace(Candidates(rule)[n - 1]), sc.upstream(n - 1));
  }

  /** Whether a candidate sends the request on depends on its last HTTP attempt alone, as long as the
      request reached its provider and the context did not end during the retries. */
  lemma LastAttemptDecides(r: Registry, model: string, w: World, triggers: seq<Trigger>)
    requires SplitModel(model).Ok? && SplitModel(model).value.provider in r.providers
    requires !w.malformed && forall k: nat :: w.cancelled(k).None?
    requires Run(r.policy, w).outcome.Err?
    ensures var d := Forward(r, model, w);
            && d.requests > 0
            && (GoesOn(d, triggers) <==> triggers == [] || Classify(ErrorOf(w.reply(d.requests - 1))) in triggers)
  {
    FailureIsOfLastAttempt(Effective(r.policy), w, Effective(r.policy).maxAttempts, 0);
  }

  /** The request reaches the candidate's provider, and the context does not end during the retries. */
  ghost predicate Reaches(r: Registry, model: string, w: World) {
    && SplitModel(model).Ok? && SplitModel(model).value.provider in r.providers
    && !w.malformed && forall k: nat :: w.cancelled(k).None?
  }

  /** The table of failures: a candidate whose last HTTP attempt came to a sends the request on. */
  predicate SendsOn(a: Attempt, decode: string -> Option<string>, triggers: seq<Trigger>) {
    match a
    case Broken(deadline) => triggers == [] || (if deadline then Timeout in triggers else AnyError in triggers)
    case Answered(status, body) =>
      if 200 <= status < 300 then decode(body).None? && (triggers == [] || AnyError in triggers)
      else if status == 429 then triggers == [] || RateLimit in triggers
      else if status == 504 || status == 408 then triggers == [] || Timeout in triggers
      else triggers == [] || AnyError in triggers
  }

  lemma LastAttemptTable(r: Registry, model: string, w: World, triggers: seq<Trigger>)
    requires Reaches(r, model, w)
    ensures var d := Forward(r, model, w);
            d.requests > 0 && (GoesOn(d, triggers) <==> SendsOn(w.reply(d.requests - 1), r.decode, triggers))
  {
    var p := Effective(r.policy);
    AttemptsMade(p, w, p.maxAttempts);
  }

  /** A failure before or behind the HTTP attempts counts as any error. */
  lemma OtherFailures(r: Registry, model: string, w: World, triggers: seq<Trigger>)
    requires SplitModel(model).Err? || SplitModel(model).value.provider !in r.providers || w.malformed
    ensures GoesOn(Forward(r, model, w), triggers) <==> triggers == [] || AnyError in triggers
  {
  }

  /** The last HTTP attempt made for the i-th candidate. */
  function LastAttempt(r: Registry, sc: Scene, c: seq<string>, i: nat): Attempt {
    var n := if i < |c| then Forward(r, c[i], sc.upstream(i)).requests else 0;
    if n == 0 then Broken(false) else sc.upstream(i).reply(n - 1)
  }

  /** The i-th candidate's last HTTP attempt sends the request on. */
  predicate CandidateSendsOn(r: Registry, rule: Rule, sc: Scene, i: nat) {
    SendsOn(LastAttempt(r, sc, Candidates(rule), i), r.decode, rule.triggers)
  }

  lemma CandidateGoesOn(r: Registry, rule: Rule, sc: Scene, i: nat)
    requires i < |Candidates(rule)| && Reaches(r, Candidates(rule)[i], sc.upstream(i))
    ensures GoesOn(Prospects(r, rule, sc)[i], rule.triggers) <==> CandidateSendsOn(r, rule, sc, i)
  {
    LastAttemptTable(r, Candidates(rule)[i], sc.upstream(i), rule.triggers);
  }

  lemma TriedExactlyMeans(p: seq<Dispatched>, triggers: seq<Trigger>, dead: nat -> Option<Error>, n: nat, on: nat -> bool)
    requires (forall i: nat :: dead(i).None?) && n > 0
    requires forall i: nat :: i < |p| ==> (GoesOn(p[i], triggers) <==> on(i))
    ensures TriedExactly(p, triggers, dead, n) <==>
              n <= |p| && (forall i: nat :: i + 1 < n ==> on(i)) && (n == |p| || !on(n - 1))
  {
  }

  /** How far Dispatch gets: while the context lives it tries candidates up to the first whose last HTTP
      attempt does not send the request on, or all of them. */
  lemma TriedByLastAttempts(r: Registry, rule: Rule, sc: Scene, n: nat)
    requires forall i: nat :: sc.dead(i).None?
    requires forall i: nat :: i < |Candidates(rule)| ==> Reaches(r, Candidates(rule)[i], sc.upstream(i))
    requires n > 0
    ensures TriedExactly(Prospects(r, rule, sc), rule.triggers, sc.dead, n) <==>
              && n <= 1 + |rule.fallbacks|
              && (forall i: nat :: i + 1 < n ==> CandidateSendsOn(r, rule, sc, i))
              && (n == 1 + |rule.fallbacks| || !CandidateSendsOn(r, rule, sc, n - 1))
  {
    forall i: nat | i < |Candidates(rule)|
      ensures GoesOn(Prospects(r, rule, sc)[i], rule.triggers) <==> CandidateSendsOn(r, rule, sc, i)
    {
      CandidateGoesOn(r, rule, sc, i);
    }
    var on := (i: nat) => CandidateSendsOn(r, rule, sc, i);
    TriedExactlyMeans(Prospects(r, rule, sc), rule.triggers, sc.dead, n, on);
  }
}
