/**
What a decision of app/policy_as_code/engine.py says beside its status: the result of each
rule, the obligations, the required controls and the reasons.
*/
module PolicyDecision {
  import opened Common
  import opened PyValue
  import opened PolicyExpr
  import opened PolicyEngine
  import PolicyMeaning

  /** The five severities from the mildest to the gravest; any other text ranks with the mildest. */
  lemma {:induction false} SeveritiesInOrder(s: string)
    ensures Rank("info") < Rank("low") < Rank("medium") < Rank("high") < Rank("critical")
    ensures s != "low" && s != "medium" && s != "high" && s != "critical" ==> Rank(s) == Rank("info")
  {
  }

  /** The rule's text evaluates to something true. */
  predicate HoldsOn(lib: Library, p: Policy, rule: Rule, evidence: Context, depth: nat) {
    var v := EvalText(lib, rule.when, evidence, p.params, depth);
    v.Ok? && PolicyMeaning.IsTrue(v.value)
  }

  /** The result is the rule's: its name, whether it held, its severity or the policy's, and what is wrong if not. */
  predicate Tells(result: RuleResult, p: Policy, rule: Rule, held: bool) {
    && result.id == rule.id && result.passed == held
    && result.severity == (if rule.severity.Some? then rule.severity.value else p.baseSeverity)
    && (held ==> result.complaint == None)
    && (!held && rule.elseFail.Some? ==> result.complaint == Some(Given(rule.elseFail.value)))
    && (!held && rule.elseFail.None? ==> result.complaint == Some(NotSatisfied(rule.id)))
  }

  lemma {:induction false} ResultTells(lib: Library, p: Policy, rule: Rule, evidence: Context, depth: nat)
    ensures
      var v := EvaluatorOn(lib, evidence, p.params, depth)(rule.when);
      v.Ok? ==> Tells(ResultOf(p, rule, Truthy(v.value)), p, rule, HoldsOn(lib, p, rule, evidence, depth))
  {
    var v := EvalText(lib, rule.when, evidence, p.params, depth);
    if v.Ok? {
      PolicyMeaning.TruthOf(v.value);
    }
  }

  /** The first results are those of the first rules. */
  predicate AllTell(lib: Library, p: Policy, evidence: Context, depth: nat, results: seq<RuleResult>) {
    |results| <= |p.rules|
    && forall k :: 0 <= k < |results| ==> Tells(results[k], p, p.rules[k], HoldsOn(lib, p, p.rules[k], evidence, depth))
  }

  lemma {:induction false} ResultsTell(lib: Library, p: Policy, evidence: Context, depth: nat, n: nat)
    requires n <= |p.rules|
    ensures
      var r := RuleResults(p, EvaluatorOn(lib, evidence, p.params, depth), n);
      r.Ok? ==> |r.value| == n && AllTell(lib, p, evidence, depth, r.value)
  {
    if n > 0 {
      var eval := EvaluatorOn(lib, evidence, p.params, depth);
      ResultsTell(lib, p, evidence, depth, n - 1);
      ResultTells(lib, p, p.rules[n - 1], evidence, depth);
      var before, v := RuleResults(p, eval, n - 1), eval(p.rules[n - 1].when);
      if before.Ok? && v.Ok? {
        OneMoreTells(lib, p, evidence, depth, before.value, ResultOf(p, p.rules[n - 1], Truthy(v.value)));
      }
    }
  }

  lemma {:induction false} OneMoreTells(lib: Library, p: Policy, evidence: Context, depth: nat,
                                        results: seq<RuleResult>, r: RuleResult)
    requires |results| < |p.rules| && AllTell(lib, p, evidence, depth, results)
    requires Tells(r, p, p.rules[|results|], HoldsOn(lib, p, p.rules[|results|], evidence, depth))
    ensures AllTell(lib, p, evidence, depth, results + [r])
  {
  }

  /**
  A decision to pass or to fail lists every rule with whether it held; the others list none. Only a
  failing one carries the policy's obligations and a severity above "info", and only one
  reached by an expression error leaves the required controls out.
  */
  lemma {:induction false} DecisionLists(lib: Library, p: Policy, evidence: Context,
                                         deps: Option<map<string, Status>>, depth: nat, d: Decision)
    requires Decide(lib, p, evidence, deps, depth) == Ok(d)
    ensures d.status == Fail ==> d.obligations == p.onFail
    ensures d.status != Fail ==> d.obligations == [] && d.severity == "info"
    ensures d.required == if d.status == Error then [] else p.required
    ensures d.status == NotApplicable || d.status == Error ==> d.rules == []
    ensures d.status == Pass || d.status == Fail ==>
      |d.rules| == |p.rules| && AllTell(lib, p, evidence, depth, d.rules)
  {
    ResultsTell(lib, p, evidence, depth, |p.rules|);
  }

  /** The signal is not among the evidence, or is None there. */
  predicate IsMissing(signal: string, evidence: Context) {
    StrKey(signal) !in evidence || evidence[StrKey(signal)] == Null
  }

  lemma {:induction false} AbsentAreMissing(signals: seq<string>, evidence: Context, s: string)
    ensures s in Absent(signals, evidence) <==> s in signals && IsMissing(s, evidence)
  {
    if signals != [] {
      AbsentAreMissing(signals[1..], evidence, s);
      assert signals == [signals[0]] + signals[1..];
    }
  }

  lemma {:induction false} KindsAre(required: seq<string>, deps: map<string, Status>, c: string)
    ensures c in OfKind(required, deps, Failing) <==> c in required && c in deps && deps[c] in {Fail, Error}
    ensures c in OfKind(required, deps, Unassessed) <==> c in required && c in deps && deps[c] == NotApplicable
    ensures c in OfKind(required, deps, Unknown) <==> c in required && c !in deps
  {
    if required != [] {
      KindsAre(required[1..], deps, c);
      assert required == [required[0]] + required[1..];
    }
  }

  /** Some failed rule says `w`. */
  predicate SaidBySome(results: seq<RuleResult>, w: Complaint) {
    exists k :: 0 <= k < |results| && Says(results[k], w)
  }

  predicate Says(r: RuleResult, w: Complaint) {
    !r.passed && r.complaint == Some(w)
  }

  lemma {:induction false} ComplaintsAre(results: seq<RuleResult>, w: Complaint)
    ensures w in Complaints(Failed(results)) <==> w != Given("") && SaidBySome(results, w)
  {
    if results != [] {
      var first, rest := results[0], results[1..];
      ComplaintsAre(rest, w);
      if k :| 0 <= k < |rest| && Says(rest[k], w) {
        assert Says(results[k + 1], w);
      }
      if k :| 1 <= k < |results| && Says(results[k], w) {
        assert Says(rest[k - 1], w);
      }
      if !first.passed {
        assert Failed(results)[0] == first && Failed(results)[1..] == Failed(rest);
      } else {
        assert Failed(results) == Failed(rest);
      }
    }
  }

  /** Why a policy is not applicable: the missing signals, or, if none is, the required controls not assessed. */
  lemma {:induction false} WhyNotApplicable(lib: Library, p: Policy, evidence: Context,
                                            deps: Option<map<string, Status>>, depth: nat, d: Decision, name: string)
    requires Decide(lib, p, evidence, deps, depth) == Ok(d) && d.status == NotApplicable
    ensures d.reason.Unavailable? || d.reason.NotAssessed?
    ensures d.reason.Unavailable? <==> exists s :: s in p.signals && IsMissing(s, evidence)
    ensures d.reason.Unavailable? ==> (name in d.reason.signals <==> name in p.signals && IsMissing(name, evidence))
    ensures d.reason.NotAssessed? && deps.Some? ==> (name in d.reason.controls <==>
      name in p.required && name in deps.value && deps.value[name] == NotApplicable)
    ensures d.reason.NotAssessed? ==> deps.Some?
  {
    forall s ensures s in Absent(p.signals, evidence) <==> s in p.signals && IsMissing(s, evidence) {
      AbsentAreMissing(p.signals, evidence, s);
    }
    var absent := Absent(p.signals, evidence);
    if absent != [] {
      assert absent[0] in absent;
    }
    if deps.Some? {
      KindsAre(p.required, deps.value, name);
    }
  }

  lemma {:induction false} FailSays(p: Policy, eval: Evaluator, evidence: Context, deps: Option<map<string, Status>>,
                                    d: Decision)
    requires DecideBy(p, eval, evidence, deps) == Ok(d) && d.status == Fail
    ensures d.reason == Because(Complaints(Failed(d.rules)), Deps(p, deps, Failing), Deps(p, deps, Unknown))
  {
  }

  /** Why a policy fails: what its failed rules say, the required controls that fail and those without a status. */
  lemma {:induction false} WhyItFails(lib: Library, p: Policy, evidence: Context, deps: Option<map<string, Status>>,
                                      depth: nat, d: Decision, name: string, w: Complaint)
    requires Decide(lib, p, evidence, deps, depth) == Ok(d) && d.status == Fail
    ensures d.reason.Because?
    ensures w in d.reason.complaints <==> w != Given("") && SaidBySome(d.rules, w)
    ensures name in d.reason.failing <==> deps.Some? && name in p.required && name in deps.value
                                          && deps.value[name] in {Fail, Error}
    ensures name in d.reason.unknown <==> deps.Some? && name in p.required && name !in deps.value
  {
    FailSays(p, EvaluatorOn(lib, evidence, p.params, depth), evidence, deps, d);
    ComplaintsAre(d.rules, w);
    if deps.Some? {
      KindsAre(p.required, deps.value, name);
    }
  }

  /** A pass is explained by the policy's description, if it has one. */
  lemma {:induction false} WhyItPasses(lib: Library, p: Policy, evidence: Context, deps: Option<map<string, Status>>,
                                       depth: nat, d: Decision)
    requires Decide(lib, p, evidence, deps, depth) == Ok(d) && d.status == Pass
    ensures d.reason == if p.description == "" then AllSatisfied else Described(p.description)
  {
  }
}
