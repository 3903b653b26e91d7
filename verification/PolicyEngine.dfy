/**
Policy decisions (app/policy_as_code/engine.py, `Policy.evaluate`, signal inference in
`load_policy`): rules over the evidence, required controls, escalations of severity, and the
guard that answers "not applicable" where evidence is missing.
*/
module PolicyEngine {
  import opened Common
  import opened PyValue
  import opened PolicyExpr
  import opened PolicyNames

  datatype Rule = Rule(id: Option<string>, when: string, elseFail: Option<string>, severity: Option<string>)

  datatype Escalation = Escalation(when: Option<string>, severity: Option<string>)

  datatype Policy = Policy(control: string, baseSeverity: string, params: Context, rules: seq<Rule>,
                           escalations: seq<Escalation>, onFail: seq<string>, required: seq<string>,
                           description: string,
                           signals: seq<string>)

  datatype Status = Pass | Fail | Error | NotApplicable

  /** Why a rule did not pass: the policy's own words, or that the rule of this name is not satisfied. */
  datatype Complaint = Given(words: string) | NotSatisfied(rule: Option<string>)

  datatype RuleResult = RuleResult(id: Option<string>, passed: bool, severity: string, complaint: Option<Complaint>)

  datatype Reason =
    | Unavailable(signals: seq<string>)
    | ExpressionError(message: string)
    | NotAssessed(controls: seq<string>)
    | AllSatisfied
    | Described(description: string)
    | Because(complaints: seq<Complaint>, failing: seq<string>, unknown: seq<string>)

  datatype Decision = Decision(status: Status, severity: string, reason: Reason, rules: seq<RuleResult>,
                               obligations: seq<string>, required: seq<string>)

  const INFO := "info"

  function Rank(severity: string): nat {
    if severity == "low" then 1
    else if severity == "medium" then 2
    else if severity == "high" then 3
    else if severity == "critical" then 4
    else 0
  }

  function OrElse(value: Option<string>, default: string): string {
    if value.Some? then value.value else default
  }

  /** How expressions evaluate against the evidence at hand. */
  type Evaluator = string -> Outcome

  function EvaluatorOn(lib: Library, evidence: Context, params: Context, depth: nat): Evaluator {
    text => EvalText(lib, text, evidence, params, depth)
  }

  // ---------- the parts of a decision ----------

  function Absent(signals: seq<string>, evidence: Context): seq<string> {
    if signals == [] then []
    else (if Get(evidence, signals[0]).Null? then [signals[0]] else []) + Absent(signals[1..], evidence)
  }

  function ResultOf(p: Policy, r: Rule, passed: bool): RuleResult {
    RuleResult(r.id, passed, OrElse(r.severity, p.baseSeverity),
               if passed then None else Some(if r.elseFail.Some? then Given(r.elseFail.value) else NotSatisfied(r.id)))
  }

  /** The results of the first `n` rules, or the first fault among them. */
  function RuleResults(p: Policy, eval: Evaluator, n: nat): Result<seq<RuleResult>, Fault>
    requires n <= |p.rules|
  {
    if n == 0 then Ok([])
    else
      AddResult(p, p.rules[n - 1], RuleResults(p, eval, n - 1), eval(p.rules[n - 1].when))
  }

  function AddResult(p: Policy, r: Rule,
      before: Result<seq<RuleResult>, Fault>, value: Outcome): Result<seq<RuleResult>, Fault> {
    var results :- before;
    var v :- value;
    Ok(results + [ResultOf(p, r, Truthy(v))])
  }

  function Failed(results: seq<RuleResult>): seq<RuleResult> {
    if results == [] then []
    else (if results[0].passed then [] else [results[0]]) + Failed(results[1..])
  }

  datatype DepKind = Failing | Unassessed | Unknown

  predicate IsKind(deps: map<string, Status>, c: string, kind: DepKind) {
    match kind
    case Failing => c in deps && (deps[c] == Fail || deps[c] == Error)
    case Unassessed => c in deps && deps[c] == NotApplicable
    case Unknown => c !in deps
  }

  function OfKind(required: seq<string>, deps: map<string, Status>, kind: DepKind): seq<string> {
    if required == [] then []
    else (if IsKind(deps, required[0], kind) then [required[0]] else []) + OfKind(required[1..], deps, kind)
  }

  /** Without dependency statuses the caller is not evaluating composition. */
  function Deps(p: Policy, deps: Option<map<string, Status>>, kind: DepKind): seq<string> {
    if deps.None? then [] else OfKind(p.required, deps.value, kind)
  }

  function Worse(severity: string, than: string): string {
    if Rank(severity) > Rank(than) then severity else than
  }

  /** The base severity raised by the first `n` failed rules. */
  function Raised(base: string, failed: seq<RuleResult>, n: nat): string
    requires n <= |failed|
  {
    if n == 0 then base else Worse(failed[n - 1].severity, Raised(base, failed, n - 1))
  }

  /** One escalation; the source looks its keys up again, and an absent one is a KeyError. */
  function Escalate(eval: Evaluator, e: Escalation, severity: string): Result<string, Fault> {
    if e.when.None? then Err(Crash)
    else
      match eval(e.when.value)
      case Err(fault) => if fault.PolicyError? then Ok(severity) else Err(fault)
      case Ok(v) =>
        if Truthy(v) && Rank(OrElse(e.severity, "high")) > Rank(severity) then
          if e.severity.None? then Err(Crash) else Ok(e.severity.value)
        else Ok(severity)
  }

  function Escalated(p: Policy, eval: Evaluator, severity: string, n: nat): Result<string, Fault>
    requires n <= |p.escalations|
  {
    if n == 0 then Ok(severity)
    else
      var before :- Escalated(p, eval, severity, n - 1);
      Escalate(eval, p.escalations[n - 1], before)
  }

  /** The complaints that have something to say. */
  function Complaints(failed: seq<RuleResult>): seq<Complaint> {
    if failed == [] then []
    else (if failed[0].complaint.Some? && failed[0].complaint.value != Given("") then [failed[0].complaint.value]
        else [])
         + Complaints(failed[1..])
  }

  /** A policy's description, if it has one, is the reason for its passing. */
  function PassReason(p: Policy): Reason {
    if p.description == "" then AllSatisfied else Described(p.description)
  }

  /** The decision once every rule has a result. */
  function Settle(p: Policy, eval: Evaluator,
      deps: Option<map<string, Status>>, results: seq<RuleResult>): Result<Decision, Fault> {
    var failed, failing := Failed(results), Deps(p, deps, Failing);
    var unassessed, unknown := Deps(p, deps, Unassessed), Deps(p, deps, Unknown);
    if unassessed != [] && failed == [] && failing == [] then
      Ok(Decision(NotApplicable, INFO, NotAssessed(unassessed), [], [], p.required))
    else if failed == [] && failing == [] && unknown == [] then
      Ok(Decision(Pass, INFO, PassReason(p), results, [], p.required))
    else
      var severity :- Escalated(p, eval, Raised(p.baseSeverity, failed, |failed|), |p.escalations|);
      Ok(Decision(Fail, severity, Because(Complaints(failed), failing, unknown), results, p.onFail, p.required))
  }

  function DecideBy(p: Policy, eval: Evaluator, evidence: Context,
      deps: Option<map<string, Status>>): Result<Decision, Fault> {
    var absent := Absent(p.signals, evidence);
    if absent != [] then
      Ok(Decision(NotApplicable, INFO, Unavailable(absent), [], [], p.required))
    else
      match RuleResults(p, eval, |p.rules|)
      case Err(fault) =>
        if fault.PolicyError? then Ok(Decision(Error, INFO, ExpressionError(fault.message), [], [], []))
        else Err(fault)
      case Ok(results) => Settle(p, eval, deps, results)
  }

  function Decide(lib: Library, p: Policy, evidence: Context,
      deps: Option<map<string, Status>>, depth: nat): Result<Decision, Fault> {
    DecideBy(p, EvaluatorOn(lib, evidence, p.params, depth), evidence, deps)
  }

  /** The loop over the rules: it stops at the first fault. */
  method EvaluateRules(p: Policy, eval: Evaluator) returns (r: Result<seq<RuleResult>, Fault>)
    ensures r == RuleResults(p, eval, |p.rules|)
  {
    var results: seq<RuleResult> := [];
    var n := 0;
    while n < |p.rules|
      invariant n <= |p.rules| && RuleResults(p, eval, n) == Ok(results)
    {
      var v := eval(p.rules[n].when);
      if v.Err? {
        FaultStays(p, eval, n + 1, |p.rules|);
        return Err(v.error);
      }
      results := results + [ResultOf(p, p.rules[n], Truthy(v.value))];
      n := n + 1;
    }
    return Ok(results);
  }

  /** The loops over failed rules and escalations: the severity only ever rises. */
  method FailingSeverity(p: Policy, eval: Evaluator, failed: seq<RuleResult>)
    returns (r: Result<string, Fault>)
    ensures r == Escalated(p, eval, Raised(p.baseSeverity, failed, |failed|), |p.escalations|)
  {
    var severity := p.baseSeverity;
    var n := 0;
    while n < |failed|
      invariant n <= |failed| && severity == Raised(p.baseSeverity, failed, n)
    {
      if Rank(failed[n].severity) > Rank(severity) {
        severity := failed[n].severity;
      }
      n := n + 1;
    }
    ghost var raised := severity;
    n := 0;
    while n < |p.escalations|
      invariant n <= |p.escalations| && Escalated(p, eval, raised, n) == Ok(severity)
    {
      var next := Escalate(eval, p.escalations[n], severity);
      if next.Err? {
        EscalationFaultStays(p, eval, raised, n + 1, |p.escalations|);
        return Err(next.error);
      }
      severity := next.value;
      n := n + 1;
    }
    return Ok(severity);
  }

  /** `Policy.evaluate`; an Err is an exception that the caller sees. */
  method Evaluate(lib: Library, p: Policy, evidence: Context, deps: Option<map<string, Status>>, depth: nat)
    returns (r: Result<Decision, Fault>)
    ensures r == Decide(lib, p, evidence, deps, depth)
  {
    var eval := EvaluatorOn(lib, evidence, p.params, depth);
    var absent := Absent(p.signals, evidence);
    if absent != [] {
      return Ok(Decision(NotApplicable, INFO, Unavailable(absent),
                         [], [], p.required));
    }
    var evaluated := EvaluateRules(p, eval);
    if evaluated.Err? {
      if evaluated.error.PolicyError? {
        return Ok(Decision(Error, INFO, ExpressionError(evaluated.error.message), [], [], []));
      }
      return Err(evaluated.error);
    }
    var results := evaluated.value;
    var failed := Failed(results);
    var failing, unassessed, unknown := Deps(p, deps, Failing), Deps(p, deps, Unassessed), Deps(p, deps, Unknown);
    if unassessed != [] && failed == [] && failing == [] {
      return Ok(Decision(NotApplicable, INFO, NotAssessed(unassessed), [], [], p.required));
    }
    if failed == [] && failing == [] && unknown == [] {
      return Ok(Decision(Pass, INFO, PassReason(p), results, [], p.required));
    }
    var severity := FailingSeverity(p, eval, failed);
    if severity.Err? {
      return Err(severity.error);
    }
    return Ok(Decision(Fail, severity.value, Because(Complaints(failed), failing, unknown), results, p.onFail,
        p.required));
  }

  lemma {:induction false} FaultStays(p: Policy, eval: Evaluator, m: nat, n: nat)
    requires m <= n <= |p.rules| && RuleResults(p, eval, m).Err?
    ensures RuleResults(p, eval, n) == RuleResults(p, eval, m)
  {
    if m < n { FaultStays(p, eval, m, n - 1); }
  }

  lemma {:induction false} EscalationFaultStays(p: Policy, eval: Evaluator, severity: string, m: nat, n: nat)
    requires m <= n <= |p.escalations| && Escalated(p, eval, severity, m).Err?
    ensures Escalated(p, eval, severity, n) == Escalated(p, eval, severity, m)
  {
    if m < n { EscalationFaultStays(p, eval, severity, m, n - 1); }
  }

  // ---------- when a policy passes ----------

  /** Every signal has a value in the evidence. */
  predicate Observed(p: Policy, evidence: Context) {
    forall s :: s in p.signals ==> !Get(evidence, s).Null?
  }

  /** The rule evaluates without a fault, to something true. */
  predicate Satisfied(eval: Evaluator, r: Rule) {
    var v := eval(r.when);
    v.Ok? && Truthy(v.value)
  }

  predicate DependenciesPass(p: Policy, deps: Option<map<string, Status>>) {
    deps.Some? ==> forall c :: c in p.required ==> c in deps.value && deps.value[c] == Pass
  }

  lemma {:induction false} AbsentIffUnobserved(signals: seq<string>, evidence: Context)
    ensures Absent(signals, evidence) == [] <==> forall s :: s in signals ==> !Get(evidence, s).Null?
  {
    if signals != [] {
      AbsentIffUnobserved(signals[1..], evidence);
      assert signals == [signals[0]] + signals[1..];
    }
  }

  lemma {:induction false} NoneOfKind(required: seq<string>, deps: map<string, Status>, kind: DepKind)
    ensures OfKind(required, deps, kind) == [] <==> forall c :: c in required ==> !IsKind(deps, c, kind)
  {
    if required != [] {
      NoneOfKind(required[1..], deps, kind);
      assert required == [required[0]] + required[1..];
    }
  }

  lemma {:induction false} FailedAppend(results: seq<RuleResult>, r: RuleResult)
    ensures Failed(results + [r]) == Failed(results) + if r.passed then [] else [r]
  {
    if results == [] {
      assert Failed([r]) == if r.passed then [] else [r];
      assert results + [r] == [r];
    } else {
      var all := results + [r];
      assert all[0] == results[0] && all[1..] == results[1..] + [r];
      FailedAppend(results[1..], r);
    }
  }

  lemma {:induction false} AllRulesHold(p: Policy, eval: Evaluator, n: nat)
    requires n <= |p.rules|
    ensures RuleResults(p, eval, n).Ok? && Failed(RuleResults(p, eval, n).value) == []
            <==> forall i :: 0 <= i < n ==> Satisfied(eval, p.rules[i])
  {
    if n > 0 {
      AllRulesHold(p, eval, n - 1);
      var before, v := RuleResults(p, eval, n - 1), eval(p.rules[n - 1].when);
      if before.Ok? && v.Ok? { FailedAppend(before.value, ResultOf(p, p.rules[n - 1], Truthy(v.value))); }
    }
  }

  lemma {:induction false} DependenciesKinds(p: Policy, deps: Option<map<string, Status>>)
    ensures DependenciesPass(p, deps)
            <==> Deps(p, deps, Failing) == [] && Deps(p, deps, Unassessed) == [] && Deps(p, deps, Unknown) == []
  {
    if deps.Some? {
      NoneOfKind(p.required, deps.value, Failing);
      NoneOfKind(p.required, deps.value, Unassessed);
      NoneOfKind(p.required, deps.value, Unknown);
      forall c
        ensures (c in deps.value && deps.value[c] == Pass) <==>
          !IsKind(deps.value, c, Failing) && !IsKind(deps.value, c, Unassessed) && !IsKind(deps.value, c, Unknown)
      {
      }
    }
  }

  /** A policy passes exactly when nothing it needs is missing, every rule holds and every required control passes. */
  lemma {:induction false} PassExactly(lib: Library, p: Policy, evidence: Context,
      deps: Option<map<string, Status>>, depth: nat)
    ensures
      var r, eval := Decide(lib, p, evidence, deps, depth), EvaluatorOn(lib, evidence, p.params, depth);
      r.Ok? && r.value.status == Pass <==>
        && Observed(p, evidence)
        && (forall i :: 0 <= i < |p.rules| ==> Satisfied(eval, p.rules[i]))
        && DependenciesPass(p, deps)
  {
    var eval := EvaluatorOn(lib, evidence, p.params, depth);
    AbsentIffUnobserved(p.signals, evidence);
    AllRulesHold(p, eval, |p.rules|);
    DependenciesKinds(p, deps);
  }

  /** It is not applicable exactly when a signal is missing, or all that stands in the way is an unassessed control. */
  lemma {:induction false} NotApplicableExactly(lib: Library, p: Policy, evidence: Context,
      deps: Option<map<string, Status>>, depth: nat)
    ensures
      var r, eval := Decide(lib, p, evidence, deps, depth), EvaluatorOn(lib, evidence, p.params, depth);
      r.Ok? && r.value.status == NotApplicable <==>
        !Observed(p, evidence)
        || ((forall i :: 0 <= i < |p.rules| ==> Satisfied(eval, p.rules[i])) && OnlyUnassessed(p, deps))
  {
    AbsentIffUnobserved(p.signals, evidence);
    AllRulesHold(p, EvaluatorOn(lib, evidence, p.params, depth), |p.rules|);
    UnassessedKinds(p, deps);
  }

  /** A required control is unassessed, and none is failing. */
  ghost predicate OnlyUnassessed(p: Policy, deps: Option<map<string, Status>>) {
    && deps.Some?
    && (forall c :: c in p.required && c in deps.value ==> deps.value[c] != Fail && deps.value[c] != Error)
    && (exists c :: c in p.required && c in deps.value && deps.value[c] == NotApplicable)
  }

  lemma {:induction false} UnassessedKinds(p: Policy, deps: Option<map<string, Status>>)
    ensures OnlyUnassessed(p, deps) <==> Deps(p, deps, Unassessed) != [] && Deps(p, deps, Failing) == []
  {
    if deps.Some? {
      NoneOfKind(p.required, deps.value, Failing);
      NoneOfKind(p.required, deps.value, Unassessed);
    }
  }

  /** Evaluating the rules in turn, the first that faults is rule `i`. */
  ghost predicate FirstFault(p: Policy, eval: Evaluator, i: nat, fault: Fault) {
    && i < |p.rules| && eval(p.rules[i].when) == Err(fault)
    && forall j :: 0 <= j < i ==> eval(p.rules[j].when).Ok?
  }

  lemma {:induction false} FaultIsFirst(p: Policy, eval: Evaluator, n: nat, fault: Fault)
    requires n <= |p.rules|
    ensures RuleResults(p, eval, n) == Err(fault) <==> exists i :: 0 <= i < n && FirstFault(p, eval, i, fault)
    ensures RuleResults(p, eval, n).Ok? <==> forall j :: 0 <= j < n ==> eval(p.rules[j].when).Ok?
  {
    if n > 0 {
      FaultIsFirst(p, eval, n - 1, fault);
      var v := eval(p.rules[n - 1].when);
      if RuleResults(p, eval, n - 1).Ok? && v == Err(fault) { assert FirstFault(p, eval, n - 1, fault); }
    }
  }

  /** It is an error exactly when the signals are there and the first rule that faults does so with a policy error. */
  lemma {:induction false} ErrorExactly(lib: Library, p: Policy, evidence: Context,
      deps: Option<map<string, Status>>, depth: nat, message: string)
    ensures
      var r, eval := Decide(lib, p, evidence, deps, depth), EvaluatorOn(lib, evidence, p.params, depth);
      r.Ok? && r.value.status == Error && r.value.reason == ExpressionError(message) <==>
        Observed(p, evidence) && exists i :: 0 <= i < |p.rules| && FirstFault(p, eval, i, PolicyError(message))
  {
    AbsentIffUnobserved(p.signals, evidence);
    FaultIsFirst(p, EvaluatorOn(lib, evidence, p.params, depth), |p.rules|, PolicyError(message));
  }

  // ---------- severity ----------

  lemma {:induction false} RaisedIsMaximal(base: string, failed: seq<RuleResult>, n: nat)
    requires n <= |failed|
    ensures Rank(base) <= Rank(Raised(base, failed, n))
    ensures forall i :: 0 <= i < n ==> Rank(failed[i].severity) <= Rank(Raised(base, failed, n))
    ensures Raised(base, failed, n) == base || exists i :: 0 <= i < n && failed[i].severity == Raised(base, failed, n)
  {
    if n > 0 { RaisedIsMaximal(base, failed, n - 1); }
  }

  /** The escalation's condition holds. */
  predicate Fires(eval: Evaluator, e: Escalation) {
    e.when.Some? && eval(e.when.value).Ok? && Truthy(eval(e.when.value).value)
  }

  lemma {:induction false} EscalatedIsMaximal(p: Policy, eval: Evaluator, severity: string, n: nat)
    requires n <= |p.escalations| && Escalated(p, eval, severity, n).Ok?
    ensures
      var s := Escalated(p, eval, severity, n).value;
      && Rank(severity) <= Rank(s)
      && (forall i :: 0 <= i < n && Fires(eval, p.escalations[i]) ==>
            Rank(OrElse(p.escalations[i].severity, "high")) <= Rank(s))
      && (s == severity
          || exists i :: 0 <= i < n && Fires(eval, p.escalations[i]) && p.escalations[i].severity == Some(s))
  {
    if n > 0 { EscalatedIsMaximal(p, eval, severity, n - 1); }
  }

  // ---------- when evaluation raises an exception ----------

  function Higher(a: nat, b: nat): nat {
    if a >= b then a else b
  }

  /** The rank of the base severity and of the first `n` rules, as far as they do not hold. */
  function RuleRank(p: Policy, eval: Evaluator, n: nat): nat
    requires n <= |p.rules|
  {
    if n == 0 then Rank(p.baseSeverity)
    else if Satisfied(eval, p.rules[n - 1]) then RuleRank(p, eval, n - 1)
    else Higher(RuleRank(p, eval, n - 1), Rank(OrElse(p.rules[n - 1].severity, p.baseSeverity)))
  }

  /** The rank reached from `rank` by the escalations before the `n`-th that fire. */
  function RankBefore(p: Policy, eval: Evaluator, rank: nat, n: nat): nat
    requires n <= |p.escalations|
  {
    if n == 0 then rank
    else if Fires(eval, p.escalations[n - 1]) then
      Higher(RankBefore(p, eval, rank, n - 1), Rank(OrElse(p.escalations[n - 1].severity, "high")))
    else RankBefore(p, eval, rank, n - 1)
  }

  /**
  The escalation raises an exception: it has no condition, its condition faults with something
  other than a policy error, or it fires without a severity of its own while the rank is below high.
  */
  predicate Crashes(eval: Evaluator, e: Escalation, rank: nat) {
    || e.when.None?
    || (eval(e.when.value).Err? && !eval(e.when.value).error.PolicyError?)
    || (Fires(eval, e) && e.severity.None? && rank < Rank("high"))
  }

  lemma {:induction false} EscalateExactly(eval: Evaluator, e: Escalation, severity: string)
    ensures Escalate(eval, e, severity).Err? <==> Crashes(eval, e, Rank(severity))
    ensures Escalate(eval, e, severity).Ok? ==>
      Rank(Escalate(eval, e, severity).value)
      == if Fires(eval, e) then Higher(Rank(severity), Rank(OrElse(e.severity, "high"))) else Rank(severity)
  {
  }

  lemma {:induction false} EscalatedRank(p: Policy, eval: Evaluator, severity: string, n: nat)
    requires n <= |p.escalations| && Escalated(p, eval, severity, n).Ok?
    ensures Rank(Escalated(p, eval, severity, n).value) == RankBefore(p, eval, Rank(severity), n)
  {
    if n > 0 {
      EscalatedRank(p, eval, severity, n - 1);
      EscalateExactly(eval, p.escalations[n - 1], Escalated(p, eval, severity, n - 1).value);
    }
  }

  /** The `i`-th escalation raises an exception at the rank reached from `rank` before it. */
  ghost predicate CrashesAt(p: Policy, eval: Evaluator, rank: nat, i: nat) {
    i < |p.escalations| && Crashes(eval, p.escalations[i], RankBefore(p, eval, rank, i))
  }

  /** The escalations together raise exactly if one of them does at the rank reached before it. */
  lemma {:induction false} EscalatedExactly(p: Policy, eval: Evaluator, severity: string, n: nat)
    requires n <= |p.escalations|
    ensures Escalated(p, eval, severity, n).Err? <==> exists i :: 0 <= i < n && CrashesAt(p, eval, Rank(severity), i)
  {
    if n > 0 {
      EscalatedExactly(p, eval, severity, n - 1);
      var before := Escalated(p, eval, severity, n - 1);
      if before.Ok? {
        EscalatedRank(p, eval, severity, n - 1);
        EscalateExactly(eval, p.escalations[n - 1], before.value);
        assert Escalated(p, eval, severity, n).Err? <==> CrashesAt(p, eval, Rank(severity), n - 1);
      }
    }
  }

  lemma {:induction false} RaisedPrefix(base: string, failed: seq<RuleResult>, more: seq<RuleResult>, n: nat)
    requires n <= |failed|
    ensures Raised(base, failed + more, n) == Raised(base, failed, n)
  {
    if n > 0 { RaisedPrefix(base, failed, more, n - 1); }
  }

  lemma {:induction false} RaisedAppend(base: string, failed: seq<RuleResult>, r: RuleResult)
    ensures Raised(base, failed + [r], |failed| + 1) == Worse(r.severity, Raised(base, failed, |failed|))
  {
    RaisedPrefix(base, failed, [r], |failed|);
  }

  /** The rank raised by the failed rules is the rank of the rules that do not hold. */
  lemma {:induction false} RaisedRank(p: Policy, eval: Evaluator, n: nat)
    requires n <= |p.rules| && RuleResults(p, eval, n).Ok?
    ensures
      var failed := Failed(RuleResults(p, eval, n).value);
      Rank(Raised(p.baseSeverity, failed, |failed|)) == RuleRank(p, eval, n)
  {
    if n > 0 {
      RaisedRank(p, eval, n - 1);
      var before, passed := RuleResults(p, eval, n - 1).value, Truthy(eval(p.rules[n - 1].when).value);
      var last := ResultOf(p, p.rules[n - 1], passed);
      assert RuleResults(p, eval, n).value == before + [last];
      FailedAppend(before, last);
      if passed {
        assert Failed(before) + [] == Failed(before);
      } else {
        RaisedAppend(p.baseSeverity, Failed(before), last);
      }
    }
  }

  /** The decision neither passes nor stops at an unassessed control. */
  ghost predicate ReachesEscalations(p: Policy, eval: Evaluator, deps: Option<map<string, Status>>) {
    (forall i :: 0 <= i < |p.rules| ==> Satisfied(eval, p.rules[i])) ==>
        !DependenciesPass(p, deps) && !OnlyUnassessed(p, deps)
  }

  /** Some escalation raises an exception at the rank that the rules and the escalations before it reach. */
  ghost predicate SomeEscalationCrashes(p: Policy, eval: Evaluator) {
    exists i :: 0 <= i < |p.escalations| && CrashesAt(p, eval, RuleRank(p, eval, |p.rules|), i)
  }

  /** The first rule that faults does so with something other than a policy error. */
  ghost predicate RuleCrashes(p: Policy, eval: Evaluator) {
    exists i :: 0 <= i < |p.rules| && eval(p.rules[i].when).Err? && !eval(p.rules[i].when).error.PolicyError?
                && forall j :: 0 <= j < i ==> eval(p.rules[j].when).Ok?
  }

  lemma {:induction false} SettleRaises(p: Policy, eval: Evaluator, deps: Option<map<string, Status>>)
    requires RuleResults(p, eval, |p.rules|).Ok?
    ensures Settle(p, eval, deps, RuleResults(p, eval, |p.rules|).value).Err?
            <==> ReachesEscalations(p, eval, deps) && SomeEscalationCrashes(p, eval)
  {
    var failed := Failed(RuleResults(p, eval, |p.rules|).value);
    AllRulesHold(p, eval, |p.rules|);
    DependenciesKinds(p, deps);
    UnassessedKinds(p, deps);
    RaisedRank(p, eval, |p.rules|);
    EscalatedExactly(p, eval, Raised(p.baseSeverity, failed, |failed|), |p.escalations|);
  }

  lemma {:induction false} RuleFaultRaises(p: Policy, eval: Evaluator)
    ensures RuleResults(p, eval, |p.rules|).Err? && !RuleResults(p, eval, |p.rules|).error.PolicyError?
        <==> RuleCrashes(p, eval)
  {
    var r := RuleResults(p, eval, |p.rules|);
    if r.Err? { FaultIsFirst(p, eval, |p.rules|, r.error); }
    if RuleCrashes(p, eval) {
      var i :| 0 <= i < |p.rules| && eval(p.rules[i].when).Err? && !eval(p.rules[i].when).error.PolicyError?
               && forall j :: 0 <= j < i ==> eval(p.rules[j].when).Ok?;
      assert FirstFault(p, eval, i, eval(p.rules[i].when).error);
      FaultIsFirst(p, eval, |p.rules|, eval(p.rules[i].when).error);
    }
  }

  /**
  Evaluation raises an exception exactly when the signals are there and either the first rule
  that faults does so with something other than a policy error, or every rule evaluates, the
  decision gets as far as the escalations, and one of them raises.
  */
  lemma {:induction false} RaisesExactly(lib: Library, p: Policy, evidence: Context,
      deps: Option<map<string, Status>>, depth: nat)
    ensures
      var eval := EvaluatorOn(lib, evidence, p.params, depth);
      Decide(lib, p, evidence, deps, depth).Err? <==>
        Observed(p, evidence)
        && (RuleCrashes(p, eval)
            || ((forall i :: 0 <= i < |p.rules| ==> eval(p.rules[i].when).Ok?)
                && ReachesEscalations(p, eval, deps) && SomeEscalationCrashes(p, eval)))
  {
    var eval := EvaluatorOn(lib, evidence, p.params, depth);
    AbsentIffUnobserved(p.signals, evidence);
    RuleFaultRaises(p, eval);
    FaultIsFirst(p, eval, |p.rules|, Crash);
    if RuleResults(p, eval, |p.rules|).Ok? { SettleRaises(p, eval, deps); }
  }

  /** An escalation that names both its condition and its severity, and whose condition at worst has a policy error. */
  ghost predicate Complete(eval: Evaluator, e: Escalation) {
    e.when.Some? && e.severity.Some? && (eval(e.when.value).Err? ==> eval(e.when.value).error.PolicyError?)
  }

  /** Complete escalations never get in the way of a decision. */
  lemma {:induction false} CompleteEscalationsDecide(p: Policy, eval: Evaluator, severity: string, n: nat)
    requires n <= |p.escalations| && forall i :: 0 <= i < n ==> Complete(eval, p.escalations[i])
    ensures Escalated(p, eval, severity, n).Ok?
  {
    if n > 0 { CompleteEscalationsDecide(p, eval, severity, n - 1); }
  }

  /** A policy of one failing rule of low severity and one escalation. */
  function OneRuleOneEscalation(when: string, e: Escalation): Policy {
    Policy("C", "low", map[], [Rule(None, when, None, None)], [e], [], [], "", [])
  }

  /**
  Its evaluation raises an exception if the escalation has no condition, or fires without a
  severity; with condition and severity spelled out, the same policy gets a decision.
  */
  lemma {:induction false} EvaluationCanRaise(lib: Library, evidence: Context, depth: nat, no: string, yes: string)
    requires lib.parse(no) == Ok(Const(Bool(false))) && lib.parse(yes) == Ok(Const(Bool(true)))
    ensures Decide(lib, OneRuleOneEscalation(no, Escalation(Some(yes), None)), evidence, None, depth).Err?
    ensures Decide(lib, OneRuleOneEscalation(no, Escalation(None, Some("high"))), evidence, None, depth).Err?
    ensures Decide(lib, OneRuleOneEscalation(no, Escalation(Some(yes), Some("high"))), evidence, None, depth).Ok?
  {
    var eval := EvaluatorOn(lib, evidence, map[], depth);
    ConstantText(lib, yes, Bool(true), evidence, map[], depth);
    OneRuleRaises(lib, evidence, depth, no, Escalation(Some(yes), None));
    OneRuleRaises(lib, evidence, depth, no, Escalation(None, Some("high")));
    OneRuleRaises(lib, evidence, depth, no, Escalation(Some(yes), Some("high")));
  }

  lemma {:induction false} ConstantText(lib: Library, text: string, v: Value, evidence: Context, params: Context,
      depth: nat)
    requires lib.parse(text) == Ok(Const(v))
    ensures EvaluatorOn(lib, evidence, params, depth)(text) == Ok(v)
  {
    assert Walk(lib, Const(v), evidence, params, depth) == Ok(v);
    assert EvalText(lib, text, evidence, params, depth) == Ok(v);
  }

  /** The ranks along such a policy stay low, so only the escalation itself matters. */
  lemma {:induction false} OneRuleRanks(eval: Evaluator, no: string, e: Escalation)
    requires eval(no) == Ok(Bool(false))
    ensures SomeEscalationCrashes(OneRuleOneEscalation(no, e), eval) <==> Crashes(eval, e, 1)
    ensures !RuleCrashes(OneRuleOneEscalation(no, e), eval) && !Satisfied(eval, OneRuleOneEscalation(no, e).rules[0])
  {
    var p := OneRuleOneEscalation(no, e);
    assert RuleRank(p, eval, 0) == 1;
    assert RuleRank(p, eval, 1) == 1;
    assert CrashesAt(p, eval, 1, 0) <==> Crashes(eval, e, 1);
  }

  lemma {:induction false} OneRuleRaises(lib: Library, evidence: Context, depth: nat, no: string, e: Escalation)
    requires lib.parse(no) == Ok(Const(Bool(false)))
    ensures Decide(lib, OneRuleOneEscalation(no, e), evidence, None, depth).Err?
            <==> Crashes(EvaluatorOn(lib, evidence, map[], depth), e, 1)
  {
    var p, eval := OneRuleOneEscalation(no, e), EvaluatorOn(lib, evidence, map[], depth);
    ConstantText(lib, no, Bool(false), evidence, map[], depth);
    OneRuleRanks(eval, no, e);
    RaisesExactly(lib, p, evidence, None, depth);
  }

  /**
  A failing policy's severity is the worst of its base, its failed rules and the escalations
  that fire, and is one of theirs.
  */
  lemma {:induction false} SeverityIsWorst(lib: Library, p: Policy, evidence: Context,
      deps: Option<map<string, Status>>, depth: nat)
    requires Decide(lib, p, evidence, deps, depth).Ok? && Decide(lib, p, evidence, deps, depth).value.status == Fail
    ensures
      var d, eval := Decide(lib, p, evidence, deps, depth).value, EvaluatorOn(lib, evidence, p.params, depth);
      var failed := Failed(d.rules);
      && Rank(p.baseSeverity) <= Rank(d.severity)
      && (forall i :: 0 <= i < |failed| ==> Rank(failed[i].severity) <= Rank(d.severity))
      && (forall i :: 0 <= i < |p.escalations| && Fires(eval, p.escalations[i]) ==>
            Rank(OrElse(p.escalations[i].severity, "high")) <= Rank(d.severity))
      && (d.severity == p.baseSeverity
          || (exists i :: 0 <= i < |failed| && failed[i].severity == d.severity)
          || (exists i :: 0 <= i < |p.escalations| && Fires(eval, p.escalations[i])
                          && p.escalations[i].severity == Some(d.severity)))
  {
    var d, eval := Decide(lib, p, evidence, deps, depth).value, EvaluatorOn(lib, evidence, p.params, depth);
    var failed := Failed(d.rules);
    RaisedIsMaximal(p.baseSeverity, failed, |failed|);
    EscalatedIsMaximal(p, eval, Raised(p.baseSeverity, failed, |failed|), |p.escalations|);
  }

  // ---------- what a decision depends on ----------

  function FreeIn(lib: Library, text: string): set<string> {
    if lib.parse(text).Ok? then FreeNames(lib.parse(text).value) else {}
  }

  predicate TextWellFormed(lib: Library, text: string) {
    lib.parse(text).Ok? ==> WellFormed(lib.parse(text).value)
  }

  /** The names are covered: signals, and the free names of every rule and escalation, which are well formed. */
  ghost predicate Covers(lib: Library, p: Policy, names: set<string>) {
    && (forall s :: s in p.signals ==> s in names)
    && (forall i :: 0 <= i < |p.rules| ==>
          TextWellFormed(lib, p.rules[i].when) && FreeIn(lib, p.rules[i].when) <= names)
    && (forall i :: 0 <= i < |p.escalations| && p.escalations[i].when.Some? ==>
          TextWellFormed(lib, p.escalations[i].when.value) && FreeIn(lib, p.escalations[i].when.value) <= names)
  }

  lemma {:induction false} SameText(lib: Library, text: string, one: Context, two: Context, params: Context,
      depth: nat, names: set<string>)
    requires TextWellFormed(lib, text) && FreeIn(lib, text) <= names && Agree(names, one, two)
    ensures EvalText(lib, text, one, params, depth) == EvalText(lib, text, two, params, depth)
  {
    if lib.parse(text).Ok? { FreeNamesDecide(lib, lib.parse(text).value, one, two, params, depth); }
  }

  lemma {:induction false} SameAbsent(signals: seq<string>, one: Context, two: Context, names: set<string>)
    requires (forall s :: s in signals ==> s in names) && Agree(names, one, two)
    ensures Absent(signals, one) == Absent(signals, two)
  {
    if signals != [] {
      assert signals[0] in names;
      SameAbsent(signals[1..], one, two, names);
    }
  }

  /** The two evaluators agree on the text of every rule and escalation. */
  ghost predicate SameOnTexts(p: Policy, one: Evaluator, two: Evaluator) {
    && (forall i :: 0 <= i < |p.rules| ==> one(p.rules[i].when) == two(p.rules[i].when))
    && (forall i :: 0 <= i < |p.escalations| && p.escalations[i].when.Some? ==>
          one(p.escalations[i].when.value) == two(p.escalations[i].when.value))
  }

  lemma {:induction false} SameResults(p: Policy, one: Evaluator, two: Evaluator, n: nat)
    requires n <= |p.rules| && SameOnTexts(p, one, two)
    ensures RuleResults(p, one, n) == RuleResults(p, two, n)
  {
    if n > 0 { SameResults(p, one, two, n - 1); }
  }

  lemma {:induction false} SameEscalated(p: Policy, one: Evaluator, two: Evaluator, severity: string, n: nat)
    requires n <= |p.escalations| && SameOnTexts(p, one, two)
    ensures Escalated(p, one, severity, n) == Escalated(p, two, severity, n)
  {
    if n > 0 { SameEscalated(p, one, two, severity, n - 1); }
  }

  lemma {:induction false} SameDecision(p: Policy, one: Evaluator, two: Evaluator, e1: Context, e2: Context,
                                        deps: Option<map<string, Status>>)
    requires Absent(p.signals, e1) == Absent(p.signals, e2) && SameOnTexts(p, one, two)
    ensures DecideBy(p, one, e1, deps) == DecideBy(p, two, e2, deps)
  {
    SameResults(p, one, two, |p.rules|);
    var results := RuleResults(p, one, |p.rules|);
    if results.Ok? {
      var failed := Failed(results.value);
      SameEscalated(p, one, two, Raised(p.baseSeverity, failed, |failed|), |p.escalations|);
    }
  }

  /** Evidence that agrees on the signals and on the free names of all rules and escalations gets the same decision. */
  lemma {:induction false} EvidenceDecides(lib: Library, p: Policy, one: Context, two: Context,
      deps: Option<map<string, Status>>,
                                           depth: nat, names: set<string>)
    requires Covers(lib, p, names) && Agree(names, one, two)
    ensures Decide(lib, p, one, deps, depth) == Decide(lib, p, two, deps, depth)
  {
    SameAbsent(p.signals, one, two, names);
    forall i | 0 <= i < |p.rules|
      ensures EvalText(lib, p.rules[i].when, one, p.params, depth)
          == EvalText(lib, p.rules[i].when, two, p.params, depth)
    {
      SameText(lib, p.rules[i].when, one, two, p.params, depth, names);
    }
    forall i | 0 <= i < |p.escalations| && p.escalations[i].when.Some?
      ensures EvalText(lib, p.escalations[i].when.value, one, p.params, depth)
              == EvalText(lib, p.escalations[i].when.value, two, p.params, depth)
    {
      SameText(lib, p.escalations[i].when.value, one, two, p.params, depth, names);
    }
    SameDecision(p, EvaluatorOn(lib, one, p.params, depth), EvaluatorOn(lib, two, p.params, depth), one, two, deps);
  }

  // ---------- inferred signals ----------

  /** The free names of the first `n` rules. */
  function RuleNames(lib: Library, rules: seq<Rule>, n: nat): set<string>
    requires n <= |rules|
  {
    if n == 0 then {} else RuleNames(lib, rules, n - 1) + FreeIn(lib, rules[n - 1].when)
  }

  function Undeclared(names: set<string>, params: Context): set<string> {
    set s | s in names && StrKey(s) !in params
  }

  // The alphabetical order of the inferred signals.

  ghost predicate Increasing(names: seq<string>) {
    forall i, j :: 0 <= i < j < |names| ==> StrOrder(names[i], names[j]) < 0
  }

  /** `s` goes behind the names before it, which are in order. */
  function InsertName(s: string, names: seq<string>): seq<string> {
    if names == [] || StrOrder(s, names[0]) < 0 then [s] + names else [names[0]] + InsertName(s, names[1..])
  }

  lemma {:induction false} InsertKeepsOrder(s: string, names: seq<string>)
    requires Increasing(names) && s !in names
    ensures Increasing(InsertName(s, names))
    ensures forall x :: x in InsertName(s, names) <==> x == s || x in names
  {
    if names != [] {
      OrderFlips(s, names[0]);
      if StrOrder(s, names[0]) < 0 {
        forall j | 0 <= j < |names|
          ensures StrOrder(s, names[j]) < 0
        {
          if j > 0 { OrderChains(s, names[0], names[j]); }
        }
      } else {
        var more := InsertName(s, names[1..]);
        InsertKeepsOrder(s, names[1..]);
        forall j | 0 <= j < |more|
          ensures StrOrder(names[0], more[j]) < 0
        {
          assert more[j] == s || more[j] in names[1..];
        }
      }
    }
  }

  /**
  What `load_policy` makes of the signals: those declared, or else, in order, whatever the rules
  read that is no parameter.
  */
  method LoadSignals(lib: Library,
      rules: seq<Rule>, params: Context, declared: Option<seq<string>>) returns (signals: seq<string>)
    ensures declared.Some? ==> signals == declared.value
    ensures declared.None? ==> forall s :: s in signals <==> s in RuleNames(lib, rules, |rules|) && StrKey(s) !in params
    ensures declared.None? ==> Increasing(signals)
  {
    if declared.Some? {
      return declared.value;
    }
    var inferred: set<string> := {};
    var n := 0;
    while n < |rules|
      invariant n <= |rules| && inferred == RuleNames(lib, rules, n)
    {
      var parsed := lib.parse(rules[n].when);
      if parsed.Ok? {
        var free := CollectFreeNames(parsed.value);
        inferred := inferred + free;
      }
      n := n + 1;
    }
    signals := Sorted(Undeclared(inferred, params));
  }

  method Sorted(names: set<string>) returns (sorted: seq<string>)
    ensures Increasing(sorted) && forall s :: s in sorted <==> s in names
  {
    var rest := names;
    sorted := [];
    while rest != {}
      invariant rest <= names && Increasing(sorted)
      invariant forall s :: s in sorted <==> s in names && s !in rest
      decreases rest
    {
      var s :| s in rest;
      rest := rest - {s};
      InsertKeepsOrder(s, sorted);
      sorted := InsertName(s, sorted);
    }
  }

  lemma {:induction false} RuleNamesHold(lib: Library, rules: seq<Rule>, i: nat, n: nat)
    requires i < n <= |rules|
    ensures FreeIn(lib, rules[i].when) <= RuleNames(lib, rules, n)
  {
    if i < n - 1 { RuleNamesHold(lib, rules, i, n - 1); }
  }

  /** The policy's signals are the inferred ones. */
  ghost predicate Inferred(lib: Library, p: Policy) {
    forall s :: s in p.signals <==> s in RuleNames(lib, p.rules, |p.rules|) && StrKey(s) !in p.params
  }

  /**
  With inferred signals, once the guard lets the rules be evaluated, every entry that a
  well-formed rule may read is a parameter or is present: no rule answers from a missing field.
  */
  lemma {:induction false} NoRuleReadsNothing(lib: Library, p: Policy, evidence: Context, i: nat, name: string)
    requires Inferred(lib, p) && Absent(p.signals, evidence) == []
    requires i < |p.rules| && lib.parse(p.rules[i].when).Ok? && WellFormed(lib.parse(p.rules[i].when).value)
    requires name in Reads(lib.parse(p.rules[i].when).value)
    ensures StrKey(name) in p.params || !Get(evidence, name).Null?
  {
    CoverageIsWellFormedness(lib.parse(p.rules[i].when).value);
    RuleNamesHold(lib, p.rules, i, |p.rules|);
    AbsentIffUnobserved(p.signals, evidence);
  }

  /** A field that a rule needs and the evidence lacks makes the decision "not applicable", whatever else is there. */
  lemma {:induction false} MissingFieldIsNotAPass(lib: Library, p: Policy, evidence: Context,
      deps: Option<map<string, Status>>,
                                                  depth: nat, i: nat, name: string)
    requires Inferred(lib, p) && i < |p.rules| && name in FreeIn(lib, p.rules[i].when)
    requires StrKey(name) !in p.params && Get(evidence, name).Null?
    ensures Decide(lib, p, evidence, deps, depth).Ok?
        && Decide(lib, p, evidence, deps, depth).value.status == NotApplicable
  {
    RuleNamesHold(lib, p.rules, i, |p.rules|);
    AbsentIffUnobserved(p.signals, evidence);
  }
}
