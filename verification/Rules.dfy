/**
 Enforcement of rules before a command: in order of priority, the first mandatory rule that cannot be judged or is
 violated rejects the command; advisory rules only leave remarks, and those only if the command goes through.
 */
module Rules {
  import opened Conditions

  datatype Level = Veto | Advisory

  datatype Rule = Rule(key: string, priority: int, level: Level, when: Condition, claim: Condition)

  datatype Finding = Violated | EvaluationError

  datatype Remark = Remark(key: string, finding: Finding)

  datatype Verdict = Accepted(remarks: seq<Remark>) | Rejected(key: string, finding: Finding)

  // ---------------------------------------------------------------- one rule

  predicate Applicable(leaf: Registry, r: Rule) {
    Evaluate(leaf, r.when) == Truth(true)
  }

  predicate Unsatisfied(leaf: Registry, r: Rule) {
    Evaluate(leaf, r.claim) != Truth(true)
  }

  /** A mandatory rule that errs, or applies and is not satisfied. */
  predicate Blocks(leaf: Registry, r: Rule) {
    r.level == Veto && (Evaluate(leaf, r.when).Error? || (Applicable(leaf, r) && Unsatisfied(leaf, r)))
  }

  predicate Remarks(leaf: Registry, r: Rule) {
    r.level == Advisory && Applicable(leaf, r) && Unsatisfied(leaf, r)
  }

  function FindingOf(leaf: Registry, r: Rule): Finding {
    if Evaluate(leaf, r.when).Error? || Evaluate(leaf, r.claim).Error? then EvaluationError else Violated
  }

  function RemarksOf(leaf: Registry, rules: seq<Rule>): seq<Remark> {
    if rules == [] then []
    else
      var last := rules[|rules| - 1];
      RemarksOf(leaf, rules[..|rules| - 1]) + if Remarks(leaf, last) then [Remark(last.key, FindingOf(leaf, last))] else []
  }

  ghost predicate Accepts(leaf: Registry, rules: seq<Rule>) {
    forall i | 0 <= i < |rules| :: !Blocks(leaf, rules[i])
  }

  predicate FirstBlocking(leaf: Registry, rules: seq<Rule>, i: nat) {
    i < |rules| && Blocks(leaf, rules[i]) && forall j | 0 <= j < i :: !Blocks(leaf, rules[j])
  }

  // ---------------------------------------------------------------- enforcement

  /** Accepts exactly when no mandatory rule blocks, with the remarks of the advisory rules that apply and fail or err;
      otherwise names the first rule that blocks. */
  method EnforceRules(leaf: Registry, rules: seq<Rule>) returns (verdict: Verdict)
    ensures verdict.Accepted? <==> Accepts(leaf, rules)
    ensures verdict.Accepted? ==> verdict.remarks == RemarksOf(leaf, rules)
    ensures verdict.Rejected? ==> exists i | 0 <= i < |rules| :: FirstBlocking(leaf, rules, i) && verdict == Rejected(rules[i].key, FindingOf(leaf, rules[i]))
  {
    var remarks: seq<Remark> := [];
    for i := 0 to |rules|
      invariant forall j | 0 <= j < i :: !Blocks(leaf, rules[j])
      invariant remarks == RemarksOf(leaf, rules[..i])
    {
      assert rules[..i + 1][..i] == rules[..i];
      var rule := rules[i];
      var applicable := Evaluate(leaf, rule.when);
      if applicable.Error? {
        if rule.level == Veto {
          assert FirstBlocking(leaf, rules, i);
          return Rejected(rule.key, EvaluationError);
        }
        continue;
      }
      if !applicable.value { continue; }
      var satisfied := Evaluate(leaf, rule.claim);
      if satisfied == Truth(true) { continue; }
      var finding := if satisfied.Error? then EvaluationError else Violated;
      if rule.level == Veto {
        assert FirstBlocking(leaf, rules, i);
        return Rejected(rule.key, finding);
      }
      remarks := remarks + [Remark(rule.key, finding)];
    }
    assert rules[..|rules|] == rules;
    return Accepted(remarks);
  }

  // ---------------------------------------------------------------- what the verdict depends on

  lemma AcceptsByMembership(leaf: Registry, rules: seq<Rule>)
    ensures Accepts(leaf, rules) <==> forall r | r in rules :: !Blocks(leaf, r)
  {
  }

  /** The order of the rules does not matter to the verdict, so neither do ties of priority. */
  lemma OrderIrrelevant(leaf: Registry, rules: seq<Rule>, others: seq<Rule>)
    requires multiset(rules) == multiset(others)
    ensures Accepts(leaf, rules) <==> Accepts(leaf, others)
  {
    AcceptsByMembership(leaf, rules);
    AcceptsByMembership(leaf, others);
    forall r ensures r in rules <==> r in others {
      assert r in multiset(rules) <==> r in multiset(others);
    }
  }

  function Mandatory(rules: seq<Rule>): seq<Rule> {
    if rules == [] then []
    else
      var last := rules[|rules| - 1];
      Mandatory(rules[..|rules| - 1]) + if last.level == Veto then [last] else []
  }

  /** Advisory rules may come and go: the verdict is that of the mandatory rules alone. */
  lemma {:induction false} AdvisoryIrrelevant(leaf: Registry, rules: seq<Rule>)
    ensures Accepts(leaf, rules) <==> Accepts(leaf, Mandatory(rules))
  {
    if rules != [] {
      var rest, last := rules[..|rules| - 1], rules[|rules| - 1];
      AdvisoryIrrelevant(leaf, rest);
      AcceptsByMembership(leaf, rules);
      AcceptsByMembership(leaf, rest);
      AcceptsByMembership(leaf, Mandatory(rules));
      AcceptsByMembership(leaf, Mandatory(rest));
      assert rules == rest + [last];
    }
  }

  /** The remarks are exactly those of the advisory rules that apply and fail or err. */
  lemma {:induction false} RemarksExact(leaf: Registry, rules: seq<Rule>, remark: Remark)
    ensures remark in RemarksOf(leaf, rules) <==> exists r | r in rules ::
              && r.level == Advisory && Evaluate(leaf, r.when) == Truth(true) && Evaluate(leaf, r.claim) != Truth(true)
              && remark.key == r.key && (remark.finding == Violated <==> Evaluate(leaf, r.claim) == Truth(false))
  {
    if rules != [] {
      var rest, last := rules[..|rules| - 1], rules[|rules| - 1];
      assert rules == rest + [last];
      RemarksExact(leaf, rest, remark);
      if r :| r in rules && Remarks(leaf, r) && remark == Remark(r.key, FindingOf(leaf, r)) {
        if r != last { assert r in rest; }
      }
      forall r | r in rules && Remarks(leaf, r)
        ensures remark == Remark(r.key, FindingOf(leaf, r)) <==>
                remark.key == r.key && (remark.finding == Violated <==> Evaluate(leaf, r.claim) == Truth(false))
      {
      }
    }
  }

  // ---------------------------------------------------------------- the seeded rule

  /** No revision of an obsolete work product. */
  const NoRevisionWhenObsolete: Rule :=
    Rule("rule.core.no_revision_when_obsolete", 100, Veto, Condition("always_true", map[], []),
         Not(Condition("field_equals", map["field" := Text("status"), "value" := Text("obsolete")], [])))

  lemma SeededRuleBlocks(x: Context, others: Registry)
    requires "status" in x.fields
    ensures Blocks(Core(x, others), NoRevisionWhenObsolete) <==> x.fields["status"] == "obsolete"
  {
    var leaf := Core(x, others);
    var field := NoRevisionWhenObsolete.claim.subs[0];
    assert Evaluate(leaf, NoRevisionWhenObsolete.when) == Truth(true);
    assert field.params["field"] == Text("status") && field.params["value"] == Text("obsolete");
    assert Evaluate(leaf, field) == FieldEquals(x, field);
    assert Evaluate(leaf, Not(field)) == Negated(Evaluate(leaf, field));
  }

  /** Whatever other rules there are, a command on an obsolete product is rejected while this one is active. */
  lemma ObsoleteIsVetoed(x: Context, others: Registry, rules: seq<Rule>)
    requires NoRevisionWhenObsolete in rules && "status" in x.fields && x.fields["status"] == "obsolete"
    ensures !Accepts(Core(x, others), rules)
  {
    SeededRuleBlocks(x, others);
    AcceptsByMembership(Core(x, others), rules);
  }

  // ---------------------------------------------------------------- rules as implications

  /** The rule is judged without error in this context: each of its conditions has a plain meaning. */
  ghost predicate Judged(leaf: Registry, truth: Condition -> bool, r: Rule) {
    Sound(leaf, truth, r.when) && Sound(leaf, truth, r.claim)
  }

  /** Where all conditions can be judged, a command passes exactly if every mandatory rule holds as an implication. */
  lemma MandatoryRulesImply(leaf: Registry, truth: Condition -> bool, rules: seq<Rule>)
    requires forall i | 0 <= i < |rules| :: Judged(leaf, truth, rules[i])
    ensures Accepts(leaf, rules) <==>
            forall i | 0 <= i < |rules| && rules[i].level == Veto :: Holds(truth, rules[i].when) ==> Holds(truth, rules[i].claim)
  {
    forall i | 0 <= i < |rules|
      ensures Blocks(leaf, rules[i]) <==> rules[i].level == Veto && Holds(truth, rules[i].when) && !Holds(truth, rules[i].claim)
    {
      assert Judged(leaf, truth, rules[i]);
      EvaluateIsMeaning(leaf, truth, rules[i].when);
      EvaluateIsMeaning(leaf, truth, rules[i].claim);
    }
  }

  /** A mandatory rule whose application cannot be judged rejects the command, and so does one that applies and cannot be judged. */
  lemma ErrorsReject(leaf: Registry, rules: seq<Rule>, i: nat)
    requires i < |rules| && rules[i].level == Veto
    requires Evaluate(leaf, rules[i].when).Error? || (Evaluate(leaf, rules[i].when) == Truth(true) && Evaluate(leaf, rules[i].claim).Error?)
    ensures !Accepts(leaf, rules)
  {
    assert Blocks(leaf, rules[i]);
  }

  /** An error is reported as an error, and a rule that is judged false as violated. */
  lemma FindingExactly(leaf: Registry, r: Rule)
    requires Blocks(leaf, r) || Remarks(leaf, r)
    ensures FindingOf(leaf, r) == Violated <==> Evaluate(leaf, r.when) == Truth(true) && Evaluate(leaf, r.claim) == Truth(false)
  {
  }
}
