/**
 Trees of conditions. A leaf is judged by the registry of predicates and may fail with an error; `and` and `or` stop at
 the first sub-condition that settles them, and an error met before that is the result.
 */
module Conditions {
  import opened Wrappers

  /** A parameter that is text, or some other value given by its printed form. */
  datatype Param = Text(text: string) | Printed(text: string)

  datatype Condition = Condition(key: string, params: map<string, Param>, subs: seq<Condition>)

  datatype Reason = UnknownPredicate(key: string) | OneSubExpected(count: nat) | MissingParam(name: string) | NotImplemented | LeafError(text: string)

  datatype Judgement = Truth(value: bool) | Error(reason: Reason)

  /** How the leaves are judged in one context; unknown predicates are errors. */
  type Registry = Condition -> Judgement

  function Negated(j: Judgement): Judgement {
    if j.Error? then j else Truth(!j.value)
  }

  function Evaluate(leaf: Registry, c: Condition): Judgement
    decreases c
  {
    if c.key == "and" then EvaluateAnd(leaf, c.subs)
    else if c.key == "or" then EvaluateOr(leaf, c.subs)
    else if c.key == "not" then (if |c.subs| != 1 then Error(OneSubExpected(|c.subs|)) else Negated(Evaluate(leaf, c.subs[0])))
    else leaf(c)
  }

  function EvaluateAnd(leaf: Registry, subs: seq<Condition>): Judgement
    decreases subs
  {
    if subs == [] then Truth(true)
    else
      var first := Evaluate(leaf, subs[0]);
      if first.Error? || !first.value then first else EvaluateAnd(leaf, subs[1..])
  }

  function EvaluateOr(leaf: Registry, subs: seq<Condition>): Judgement
    decreases subs
  {
    if subs == [] then Truth(false)
    else
      var first := Evaluate(leaf, subs[0]);
      if first.Error? || first.value then first else EvaluateOr(leaf, subs[1..])
  }

  // ---------------------------------------------------------------- plain boolean meaning

  /** The meaning of a tree when every leaf is true or false: conjunction, disjunction and negation. */
  ghost predicate Holds(truth: Condition -> bool, c: Condition)
    decreases c
  {
    if c.key == "and" then forall i | 0 <= i < |c.subs| :: Holds(truth, c.subs[i])
    else if c.key == "or" then exists i | 0 <= i < |c.subs| :: Holds(truth, c.subs[i])
    else if c.key == "not" then |c.subs| == 1 && !Holds(truth, c.subs[0])
    else truth(c)
  }

  /** No leaf of the tree errs, each is judged as `truth` says, and each negation has one sub-condition. */
  ghost predicate Sound(leaf: Registry, truth: Condition -> bool, c: Condition)
    decreases c
  {
    if c.key == "and" || c.key == "or" then forall i | 0 <= i < |c.subs| :: Sound(leaf, truth, c.subs[i])
    else if c.key == "not" then |c.subs| == 1 && Sound(leaf, truth, c.subs[0])
    else leaf(c) == Truth(truth(c))
  }

  /** Without errors, evaluation is the plain boolean meaning. */
  lemma {:induction false} EvaluateIsMeaning(leaf: Registry, truth: Condition -> bool, c: Condition)
    requires Sound(leaf, truth, c)
    ensures Evaluate(leaf, c) == Truth(Holds(truth, c))
    decreases c
  {
    if c.key == "and" { AndIsMeaning(leaf, truth, c.subs); }
    else if c.key == "or" { OrIsMeaning(leaf, truth, c.subs); }
    else if c.key == "not" { EvaluateIsMeaning(leaf, truth, c.subs[0]); }
  }

  lemma {:induction false} AndIsMeaning(leaf: Registry, truth: Condition -> bool, subs: seq<Condition>)
    requires forall i | 0 <= i < |subs| :: Sound(leaf, truth, subs[i])
    ensures EvaluateAnd(leaf, subs) == Truth(forall i | 0 <= i < |subs| :: Holds(truth, subs[i]))
    decreases subs
  {
    if subs != [] {
      EvaluateIsMeaning(leaf, truth, subs[0]);
      AndIsMeaning(leaf, truth, subs[1..]);
      assert (forall i | 0 <= i < |subs| :: Holds(truth, subs[i]))
          <==> Holds(truth, subs[0]) && forall i | 0 <= i < |subs[1..]| :: Holds(truth, subs[1..][i]) by {
        if forall i | 0 <= i < |subs| :: Holds(truth, subs[i]) {
          forall i | 0 <= i < |subs[1..]| ensures Holds(truth, subs[1..][i]) { assert subs[1..][i] == subs[i + 1]; }
        }
        if Holds(truth, subs[0]) && forall i | 0 <= i < |subs[1..]| :: Holds(truth, subs[1..][i]) {
          forall i | 0 <= i < |subs| ensures Holds(truth, subs[i]) { if i > 0 { assert subs[i] == subs[1..][i - 1]; } }
        }
      }
    }
  }

  lemma {:induction false} OrIsMeaning(leaf: Registry, truth: Condition -> bool, subs: seq<Condition>)
    requires forall i | 0 <= i < |subs| :: Sound(leaf, truth, subs[i])
    ensures EvaluateOr(leaf, subs) == Truth(exists i | 0 <= i < |subs| :: Holds(truth, subs[i]))
    decreases subs
  {
    if subs != [] {
      EvaluateIsMeaning(leaf, truth, subs[0]);
      OrIsMeaning(leaf, truth, subs[1..]);
      if i :| 0 <= i < |subs| && Holds(truth, subs[i]) {
        if i > 0 { assert subs[i] == subs[1..][i - 1]; }
      }
      if i :| 0 <= i < |subs[1..]| && Holds(truth, subs[1..][i]) { assert subs[1..][i] == subs[i + 1]; }
    }
  }

  // ---------------------------------------------------------------- errors

  /** The other registry agrees wherever this one gives a truth value. */
  ghost predicate Refines(other: Registry, leaf: Registry) {
    forall c: Condition :: leaf(c).Truth? ==> other(c) == leaf(c)
  }

  /** A verdict does not depend on the leaves that err: whatever they were to say instead, it stands. */
  lemma {:induction false} VerdictStands(leaf: Registry, other: Registry, c: Condition)
    requires Refines(other, leaf) && Evaluate(leaf, c).Truth?
    ensures Evaluate(other, c) == Evaluate(leaf, c)
    decreases c
  {
    if c.key == "and" { AndStands(leaf, other, c.subs); }
    else if c.key == "or" { OrStands(leaf, other, c.subs); }
    else if c.key == "not" { VerdictStands(leaf, other, c.subs[0]); }
  }

  lemma {:induction false} AndStands(leaf: Registry, other: Registry, subs: seq<Condition>)
    requires Refines(other, leaf) && EvaluateAnd(leaf, subs).Truth?
    ensures EvaluateAnd(other, subs) == EvaluateAnd(leaf, subs)
    decreases subs
  {
    if subs != [] {
      VerdictStands(leaf, other, subs[0]);
      if Evaluate(leaf, subs[0]).value { AndStands(leaf, other, subs[1..]); }
    }
  }

  lemma {:induction false} OrStands(leaf: Registry, other: Registry, subs: seq<Condition>)
    requires Refines(other, leaf) && EvaluateOr(leaf, subs).Truth?
    ensures EvaluateOr(other, subs) == EvaluateOr(leaf, subs)
    decreases subs
  {
    if subs != [] {
      VerdictStands(leaf, other, subs[0]);
      if !Evaluate(leaf, subs[0]).value { OrStands(leaf, other, subs[1..]); }
    }
  }

  // ---------------------------------------------------------------- laws, errors included

  function Not(c: Condition): Condition {
    Condition("not", map[], [c])
  }

  function And(subs: seq<Condition>): Condition {
    Condition("and", map[], subs)
  }

  function Or(subs: seq<Condition>): Condition {
    Condition("or", map[], subs)
  }

  function Nots(subs: seq<Condition>): seq<Condition> {
    if subs == [] then [] else [Not(subs[0])] + Nots(subs[1..])
  }

  lemma DoubleNegation(leaf: Registry, c: Condition)
    ensures Evaluate(leaf, Not(Not(c))) == Evaluate(leaf, c)
  {
    assert Evaluate(leaf, Not(Not(c))) == Negated(Evaluate(leaf, Not(c)));
    assert Evaluate(leaf, Not(c)) == Negated(Evaluate(leaf, c));
  }

  lemma {:induction false} NegatedAnd(leaf: Registry, subs: seq<Condition>)
    ensures EvaluateOr(leaf, Nots(subs)) == Negated(EvaluateAnd(leaf, subs))
    decreases subs
  {
    if subs != [] {
      NegatedAnd(leaf, subs[1..]);
      var nots := Nots(subs);
      assert nots[0] == Not(subs[0]) && nots[1..] == Nots(subs[1..]);
      assert Evaluate(leaf, Not(subs[0])) == Negated(Evaluate(leaf, subs[0]));
    }
  }

  lemma {:induction false} NegatedOr(leaf: Registry, subs: seq<Condition>)
    ensures EvaluateAnd(leaf, Nots(subs)) == Negated(EvaluateOr(leaf, subs))
    decreases subs
  {
    if subs != [] {
      NegatedOr(leaf, subs[1..]);
      var nots := Nots(subs);
      assert nots[0] == Not(subs[0]) && nots[1..] == Nots(subs[1..]);
      assert Evaluate(leaf, Not(subs[0])) == Negated(Evaluate(leaf, subs[0]));
    }
  }

  /** De Morgan's laws hold with the same error where there is one. */
  lemma DeMorgan(leaf: Registry, subs: seq<Condition>)
    ensures Evaluate(leaf, Not(And(subs))) == Evaluate(leaf, Or(Nots(subs)))
    ensures Evaluate(leaf, Not(Or(subs))) == Evaluate(leaf, And(Nots(subs)))
  {
    NegatedAnd(leaf, subs);
    NegatedOr(leaf, subs);
    assert Evaluate(leaf, Not(And(subs))) == Negated(Evaluate(leaf, And(subs)));
    assert Evaluate(leaf, Not(Or(subs))) == Negated(Evaluate(leaf, Or(subs)));
  }

  // ---------------------------------------------------------------- the predicates of the core

  /** Fields are given by their printed values. */
  datatype Context = Context(fields: map<string, string>, permissions: set<string>)

  function TextParam(c: Condition, name: string): Option<string> {
    if name in c.params && c.params[name].Text? then Some(c.params[name].text) else None
  }

  function FieldEquals(x: Context, c: Condition): Judgement {
    var field := TextParam(c, "field");
    if field.None? then Error(MissingParam("field"))
    else if "value" !in c.params then Error(MissingParam("value"))
    else Truth(field.value in x.fields && x.fields[field.value] == c.params["value"].text)
  }

  function FieldNotEmpty(x: Context, c: Condition): Judgement {
    var field := TextParam(c, "field");
    if field.None? then Error(MissingParam("field")) else Truth(field.value in x.fields && x.fields[field.value] != "")
  }

  function Permission(x: Context, c: Condition): Judgement {
    var key := TextParam(c, "permission");
    if key.None? then Error(MissingParam("permission")) else Truth(key.value in x.permissions)
  }

  /** `others` judges the predicates that other modules register, and rejects unknown ones. */
  function Core(x: Context, others: Registry): Registry {
    (c: Condition) =>
      if c.key == "always_true" then Truth(true)
      else if c.key == "always_false" then Truth(false)
      else if c.key == "field_equals" then FieldEquals(x, c)
      else if c.key == "field_not_empty" then FieldNotEmpty(x, c)
      else if c.key == "permission" then Permission(x, c)
      else if c.key == "schema_valid" then Error(NotImplemented)
      else others(c)
  }

  // ---------------------------------------------------------------- what is evaluated first

  /** A conjunction has the result of its first sub-condition that is not true, and is true if there is none. */
  lemma FirstThatFails(leaf: Registry, subs: seq<Condition>, n: nat)
    requires n <= |subs| && forall i | 0 <= i < n :: Evaluate(leaf, subs[i]) == Truth(true)
    ensures n < |subs| && Evaluate(leaf, subs[n]) != Truth(true) ==> Evaluate(leaf, And(subs)) == Evaluate(leaf, subs[n])
    ensures n == |subs| ==> Evaluate(leaf, And(subs)) == Truth(true)
  {
    FirstAnd(leaf, subs, n);
    assert And(subs).subs == subs;
  }

  lemma {:induction false} FirstAnd(leaf: Registry, subs: seq<Condition>, n: nat)
    requires n <= |subs| && forall i | 0 <= i < n :: Evaluate(leaf, subs[i]) == Truth(true)
    ensures n < |subs| && Evaluate(leaf, subs[n]) != Truth(true) ==> EvaluateAnd(leaf, subs) == Evaluate(leaf, subs[n])
    ensures n == |subs| ==> EvaluateAnd(leaf, subs) == Truth(true)
    decreases n
  {
    if n > 0 { FirstAnd(leaf, subs[1..], n - 1); }
  }

  /** A disjunction has the result of its first sub-condition that is not false, and is false if there is none. */
  lemma FirstThatHolds(leaf: Registry, subs: seq<Condition>, n: nat)
    requires n <= |subs| && forall i | 0 <= i < n :: Evaluate(leaf, subs[i]) == Truth(false)
    ensures n < |subs| && Evaluate(leaf, subs[n]) != Truth(false) ==> Evaluate(leaf, Or(subs)) == Evaluate(leaf, subs[n])
    ensures n == |subs| ==> Evaluate(leaf, Or(subs)) == Truth(false)
  {
    FirstOr(leaf, subs, n);
    assert Or(subs).subs == subs;
  }

  lemma {:induction false} FirstOr(leaf: Registry, subs: seq<Condition>, n: nat)
    requires n <= |subs| && forall i | 0 <= i < n :: Evaluate(leaf, subs[i]) == Truth(false)
    ensures n < |subs| && Evaluate(leaf, subs[n]) != Truth(false) ==> EvaluateOr(leaf, subs) == Evaluate(leaf, subs[n])
    ensures n == |subs| ==> EvaluateOr(leaf, subs) == Truth(false)
    decreases n
  {
    if n > 0 { FirstOr(leaf, subs[1..], n - 1); }
  }

  /** A negation with other than one sub-condition is an error. */
  lemma NotTakesOne(leaf: Registry, c: Condition)
    requires c.key == "not" && |c.subs| != 1
    ensures Evaluate(leaf, c) == Error(OneSubExpected(|c.subs|))
  {
  }

  // ---------------------------------------------------------------- what the leaves say

  /** Without the name of a permission an error, with it whether the context has the permission. */
  lemma PermissionSays(x: Context, others: Registry, c: Condition)
    requires c.key == "permission"
    ensures Evaluate(Core(x, others), c)
            == if "permission" in c.params && c.params["permission"].Text? then Truth(c.params["permission"].text in x.permissions)
               else Error(MissingParam("permission"))
  {
    assert Evaluate(Core(x, others), c) == Permission(x, c);
  }

  /** Without the name of a field an error, with it whether the context has the field and it is not blank. */
  lemma NotEmptySays(x: Context, others: Registry, c: Condition)
    requires c.key == "field_not_empty"
    ensures Evaluate(Core(x, others), c)
            == if "field" in c.params && c.params["field"].Text?
               then Truth(c.params["field"].text in x.fields && x.fields[c.params["field"].text] != "") else Error(MissingParam("field"))
  {
    assert Evaluate(Core(x, others), c) == FieldNotEmpty(x, c);
  }

  /** Without the name of a field or a value an error, with them whether the field has the printed value. */
  lemma EqualsSays(x: Context, others: Registry, c: Condition)
    requires c.key == "field_equals"
    ensures Evaluate(Core(x, others), c)
            == if !("field" in c.params && c.params["field"].Text?) then Error(MissingParam("field"))
               else if "value" !in c.params then Error(MissingParam("value"))
               else Truth(c.params["field"].text in x.fields && x.fields[c.params["field"].text] == c.params["value"].text)
  {
    assert Evaluate(Core(x, others), c) == FieldEquals(x, c);
  }

  lemma ConstantsSay(x: Context, others: Registry, c: Condition)
    ensures c.key == "always_true" ==> Evaluate(Core(x, others), c) == Truth(true)
    ensures c.key == "always_false" ==> Evaluate(Core(x, others), c) == Truth(false)
    ensures c.key == "schema_valid" ==> Evaluate(Core(x, others), c) == Error(NotImplemented)
  {
  }
}
