/**
 The manifest of a project plan and its validation: keys, dates, dependencies,
 references between sections and the acyclicity of the phases.
 */
module PlanManifest {
  import opened Wrappers
  import opened Review
  import opened PhaseGraph

  /** `product` is the parsed work_product_id; `productText` tells an absent id from a malformed one. */
  datatype Deliverable = Deliverable(key: Key, name: string, productText: string, product: Option<Id>, requiredStatus: Option<Status>)

  datatype PlanMilestone = PlanMilestone(key: Key, name: string, phaseKey: Key, dateValid: bool,
                                         deliverableKeys: seq<Key>, ruleKeys: seq<Key>)

  datatype ScopeItem = ScopeItem(key: Key, kind: string, statement: string)

  /** `registers` holds the keys of the sections that carry nothing else to validate:
      objectives, assumptions, constraints and responsibility assignments. */
  datatype Manifest = Manifest(extensionsPresent: bool, registers: seq<seq<Key>>, scopeItems: seq<ScopeItem>,
                               deliverables: seq<Deliverable>, phases: seq<PlanPhase>, milestones: seq<PlanMilestone>,
                               ruleKeys: seq<Key>)

  const DefaultManifest: Manifest := Manifest(true, [], [], [], [], [], [])

  // ---------------------------------------------------------------- keys

  predicate Letter(c: char) {
    'a' <= c <= 'z' || 'A' <= c <= 'Z'
  }

  predicate KeyChar(c: char) {
    Letter(c) || '0' <= c <= '9' || c == '_' || c == '-'
  }

  /** A letter followed by at most 63 letters, digits, underscores or hyphens. */
  predicate WellFormedKey(k: Key) {
    1 <= |k| <= 64 && Letter(k[0]) && forall i | 0 <= i < |k| :: KeyChar(k[i])
  }

  predicate Distinct(keys: seq<Key>) {
    forall i, j | 0 <= i < j < |keys| :: keys[i] != keys[j]
  }

  predicate ValidKeys(keys: seq<Key>) {
    Distinct(keys) && forall i | 0 <= i < |keys| :: WellFormedKey(keys[i])
  }

  function DeliverableKeys(m: Manifest): seq<Key> {
    seq(|m.deliverables|, i requires 0 <= i < |m.deliverables| => m.deliverables[i].key)
  }

  function PhaseKeys(m: Manifest): seq<Key> {
    seq(|m.phases|, i requires 0 <= i < |m.phases| => m.phases[i].key)
  }

  function MilestoneKeys(m: Manifest): seq<Key> {
    seq(|m.milestones|, i requires 0 <= i < |m.milestones| => m.milestones[i].key)
  }

  function ScopeKeys(m: Manifest): seq<Key> {
    seq(|m.scopeItems|, i requires 0 <= i < |m.scopeItems| => m.scopeItems[i].key)
  }

  // ---------------------------------------------------------------- validity

  predicate ValidRegisters(m: Manifest) {
    forall i | 0 <= i < |m.registers| :: ValidKeys(m.registers[i])
  }

  predicate ValidSections(m: Manifest) {
    ValidRegisters(m) && ValidKeys(ScopeKeys(m)) && ValidKeys(DeliverableKeys(m)) && ValidKeys(PhaseKeys(m))
    && ValidKeys(MilestoneKeys(m)) && ValidKeys(m.ruleKeys)
  }

  predicate ValidDeliverable(d: Deliverable) {
    d.name != "" && d.requiredStatus.Some? && (d.productText != "" ==> d.product.Some?)
  }

  /** Dependencies name other phases of the plan, each at most once. */
  predicate ValidDependencies(m: Manifest, p: PlanPhase) {
    Distinct(p.dependsOn) && forall i | 0 <= i < |p.dependsOn| :: p.dependsOn[i] != p.key && p.dependsOn[i] in PhaseKeys(m)
  }

  predicate ValidPhase(m: Manifest, p: PlanPhase) {
    p.datesValid && p.plannedStart <= p.plannedFinish && ValidDependencies(m, p)
  }

  predicate ValidMilestone(m: Manifest, s: PlanMilestone) {
    && s.phaseKey in PhaseKeys(m) && s.name != "" && s.dateValid
    && (forall i | 0 <= i < |s.deliverableKeys| :: s.deliverableKeys[i] in DeliverableKeys(m))
    && (forall i | 0 <= i < |s.ruleKeys| :: s.ruleKeys[i] in m.ruleKeys)
  }

  predicate ValidScopeItem(s: ScopeItem) {
    (s.kind == "in_scope" || s.kind == "out_of_scope") && s.statement != ""
  }

  ghost predicate ValidManifest(m: Manifest) {
    && m.extensionsPresent
    && ValidSections(m)
    && (forall i | 0 <= i < |m.deliverables| :: ValidDeliverable(m.deliverables[i]))
    && (forall i | 0 <= i < |m.phases| :: ValidPhase(m, m.phases[i]))
    && Orderable(GraphOf(m.phases))
    && (forall i | 0 <= i < |m.milestones| :: ValidMilestone(m, m.milestones[i]))
    && (forall i | 0 <= i < |m.scopeItems| :: ValidScopeItem(m.scopeItems[i]))
  }

  // ---------------------------------------------------------------- validation

  /** Checks the keys of one section, remembering those already seen. */
  method CheckKeys(keys: seq<Key>) returns (ok: bool)
    ensures ok <==> ValidKeys(keys)
  {
    var seen: set<Key> := {};
    for i := 0 to |keys|
      invariant seen == set x | x in keys[..i]
      invariant ValidKeys(keys[..i])
    {
      if !WellFormedKey(keys[i]) || keys[i] in seen {
        assert keys[i] in keys[..i] || !WellFormedKey(keys[i]);
        return false;
      }
      assert keys[..i + 1] == keys[..i] + [keys[i]];
      seen := seen + {keys[i]};
    }
    assert keys[..|keys|] == keys;
    return true;
  }

  method CheckSections(m: Manifest) returns (ok: bool)
    ensures ok <==> ValidSections(m)
  {
    for i := 0 to |m.registers|
      invariant forall j | 0 <= j < i :: ValidKeys(m.registers[j])
    {
      var registerOk := CheckKeys(m.registers[i]);
      if !registerOk { return false; }
    }
    var scopeOk := CheckKeys(ScopeKeys(m));
    if !scopeOk { return false; }
    var deliverablesOk := CheckKeys(DeliverableKeys(m));
    if !deliverablesOk { return false; }
    var phasesOk := CheckKeys(PhaseKeys(m));
    if !phasesOk { return false; }
    var milestonesOk := CheckKeys(MilestoneKeys(m));
    if !milestonesOk { return false; }
    ok := CheckKeys(m.ruleKeys);
  }

  method CheckDependencies(m: Manifest, p: PlanPhase) returns (ok: bool)
    ensures ok <==> ValidDependencies(m, p)
  {
    var seen: set<Key> := {};
    for i := 0 to |p.dependsOn|
      invariant seen == set x | x in p.dependsOn[..i]
      invariant Distinct(p.dependsOn[..i])
      invariant forall j | 0 <= j < i :: p.dependsOn[j] != p.key && p.dependsOn[j] in PhaseKeys(m)
    {
      var dependency := p.dependsOn[i];
      if dependency == p.key || dependency !in PhaseKeys(m) || dependency in seen {
        assert dependency in seen ==> dependency in p.dependsOn[..i];
        return false;
      }
      assert p.dependsOn[..i + 1] == p.dependsOn[..i] + [dependency];
      seen := seen + {dependency};
    }
    assert p.dependsOn[..|p.dependsOn|] == p.dependsOn;
    return true;
  }

  method CheckPhases(m: Manifest) returns (ok: bool)
    ensures ok <==> (forall i | 0 <= i < |m.phases| :: ValidPhase(m, m.phases[i])) && Orderable(GraphOf(m.phases))
  {
    for i := 0 to |m.phases|
      invariant forall j | 0 <= j < i :: ValidPhase(m, m.phases[j])
    {
      if !m.phases[i].datesValid || m.phases[i].plannedFinish < m.phases[i].plannedStart { return false; }
      var dependenciesOk := CheckDependencies(m, m.phases[i]);
      if !dependenciesOk { return false; }
    }
    var cyclic := HasPhaseCycle(m.phases);
    return !cyclic;
  }

  method CheckMilestones(m: Manifest) returns (ok: bool)
    ensures ok <==> forall i | 0 <= i < |m.milestones| :: ValidMilestone(m, m.milestones[i])
  {
    for i := 0 to |m.milestones|
      invariant forall j | 0 <= j < i :: ValidMilestone(m, m.milestones[j])
    {
      var s := m.milestones[i];
      if s.phaseKey !in PhaseKeys(m) || s.name == "" || !s.dateValid { return false; }
      for j := 0 to |s.deliverableKeys|
        invariant forall l | 0 <= l < j :: s.deliverableKeys[l] in DeliverableKeys(m)
      {
        if s.deliverableKeys[j] !in DeliverableKeys(m) { return false; }
      }
      for j := 0 to |s.ruleKeys|
        invariant forall l | 0 <= l < j :: s.ruleKeys[l] in m.ruleKeys
      {
        if s.ruleKeys[j] !in m.ruleKeys { return false; }
      }
    }
    return true;
  }

  /** Accepts exactly the valid manifests. */
  method Validate(m: Manifest) returns (ok: bool)
    ensures ok <==> ValidManifest(m)
  {
    if !m.extensionsPresent { return false; }
    var sectionsOk := CheckSections(m);
    if !sectionsOk { return false; }
    for i := 0 to |m.deliverables|
      invariant forall j | 0 <= j < i :: ValidDeliverable(m.deliverables[j])
    {
      if !ValidDeliverable(m.deliverables[i]) { return false; }
    }
    var phasesOk := CheckPhases(m);
    if !phasesOk { return false; }
    var milestonesOk := CheckMilestones(m);
    if !milestonesOk { return false; }
    for i := 0 to |m.scopeItems|
      invariant forall j | 0 <= j < i :: ValidScopeItem(m.scopeItems[j])
    {
      if !ValidScopeItem(m.scopeItems[i]) { return false; }
    }
    return true;
  }

  // ---------------------------------------------------------------- what a valid manifest gives

  lemma DefaultIsValid()
    ensures ValidManifest(DefaultManifest)
  {
    assert TopologicalOrder(GraphOf([]), []);
  }

  /** With distinct keys, the graph maps each phase's key to its own dependencies. */
  lemma {:induction false} GraphReads(phases: seq<PlanPhase>, i: nat)
    requires i < |phases| && forall j, k | 0 <= j < k < |phases| :: phases[j].key != phases[k].key
    ensures phases[i].key in GraphOf(phases) && GraphOf(phases)[phases[i].key] == phases[i].dependsOn
  {
    var n := |phases| - 1;
    if i < n {
      assert phases[..n][i] == phases[i];
      GraphReads(phases[..n], i);
    }
  }

  lemma PhaseKeysDistinct(m: Manifest)
    requires ValidManifest(m)
    ensures forall j, k | 0 <= j < k < |m.phases| :: m.phases[j].key != m.phases[k].key
  {
    forall j, k | 0 <= j < k < |m.phases| ensures m.phases[j].key != m.phases[k].key {
      assert PhaseKeys(m)[j] != PhaseKeys(m)[k];
    }
  }

  /** The phases of an accepted manifest can be listed so that each comes after all it depends on. */
  lemma ValidPlanHasOrder(m: Manifest) returns (order: seq<Key>)
    requires ValidManifest(m)
    ensures forall i | 0 <= i < |m.phases| :: m.phases[i].key in order
    ensures forall i, n | 0 <= i < |m.phases| && 0 <= n < |order| && order[n] == m.phases[i].key ::
      forall d | d in m.phases[i].dependsOn :: d in order[..n]
  {
    var g := GraphOf(m.phases);
    order :| TopologicalOrder(g, order);
    PhaseKeysDistinct(m);
    forall i | 0 <= i < |m.phases| ensures m.phases[i].key in g && g[m.phases[i].key] == m.phases[i].dependsOn {
      GraphReads(m.phases, i);
    }
    forall i, n | 0 <= i < |m.phases| && 0 <= n < |order| && order[n] == m.phases[i].key
      ensures forall d | d in m.phases[i].dependsOn :: d in order[..n]
    {
      assert Ready(g, order[n], order[..n]);
    }
  }

  // ---------------------------------------------------------------- what is valid

  /** Keys are valid if each is a letter followed by at most 63 letters, digits, underscores and hyphens, and no two are the same. */
  lemma KeysExactly(keys: seq<Key>)
    ensures ValidKeys(keys) <==>
            && (forall i | 0 <= i < |keys| ::
                  && 0 < |keys[i]| < 65 && ('a' <= keys[i][0] <= 'z' || 'A' <= keys[i][0] <= 'Z')
                  && forall j | 0 <= j < |keys[i]| ::
                       var c := keys[i][j];
                       'a' <= c <= 'z' || 'A' <= c <= 'Z' || '0' <= c <= '9' || c == '_' || c == '-')
            && (forall i, j | 0 <= i < j < |keys| :: keys[i] != keys[j])
  {
    forall i | 0 <= i < |keys|
      ensures WellFormedKey(keys[i]) <==>
              && 0 < |keys[i]| < 65 && ('a' <= keys[i][0] <= 'z' || 'A' <= keys[i][0] <= 'Z')
              && forall j | 0 <= j < |keys[i]| ::
                   var c := keys[i][j]; 'a' <= c <= 'z' || 'A' <= c <= 'Z' || '0' <= c <= '9' || c == '_' || c == '-'
    {
      KeyExactly(keys[i]);
    }
  }

  lemma KeyExactly(k: Key)
    ensures WellFormedKey(k) <==>
            && 0 < |k| < 65 && ('a' <= k[0] <= 'z' || 'A' <= k[0] <= 'Z')
            && forall j | 0 <= j < |k| ::
                 var c := k[j]; 'a' <= c <= 'z' || 'A' <= c <= 'Z' || '0' <= c <= '9' || c == '_' || c == '-'
  {
  }

  predicate HasPhase(m: Manifest, k: Key) {
    exists j | 0 <= j < |m.phases| :: m.phases[j].key == k
  }

  predicate HasDeliverable(m: Manifest, k: Key) {
    exists j | 0 <= j < |m.deliverables| :: m.deliverables[j].key == k
  }

  lemma ListedKey(m: Manifest, k: Key)
    ensures k in PhaseKeys(m) <==> HasPhase(m, k)
    ensures k in DeliverableKeys(m) <==> HasDeliverable(m, k)
  {
    if j :| 0 <= j < |m.phases| && m.phases[j].key == k { assert PhaseKeys(m)[j] == k; }
    if j :| 0 <= j < |m.deliverables| && m.deliverables[j].key == k { assert DeliverableKeys(m)[j] == k; }
  }

  /** A phase is valid if its dates are and it does not end before it starts, and it depends on other phases of the plan, on none twice. */
  lemma PhasesExactly(m: Manifest, p: PlanPhase)
    ensures ValidPhase(m, p) <==>
            && p.datesValid && p.plannedFinish >= p.plannedStart
            && (forall i | 0 <= i < |p.dependsOn| :: p.dependsOn[i] != p.key && HasPhase(m, p.dependsOn[i]))
            && (forall i, j | 0 <= i < j < |p.dependsOn| :: p.dependsOn[i] != p.dependsOn[j])
  {
    forall k: Key ensures k in PhaseKeys(m) <==> HasPhase(m, k) { ListedKey(m, k); }
  }

  /** A milestone is valid if it has a name, its date is, and the phase, deliverables and rules it names are in the manifest. */
  lemma MilestonesExactly(m: Manifest, s: PlanMilestone)
    ensures ValidMilestone(m, s) <==>
            && s.name != "" && s.dateValid && HasPhase(m, s.phaseKey)
            && (forall i | 0 <= i < |s.deliverableKeys| :: HasDeliverable(m, s.deliverableKeys[i]))
            && (forall i | 0 <= i < |s.ruleKeys| :: s.ruleKeys[i] in m.ruleKeys)
  {
    forall k: Key ensures k in PhaseKeys(m) <==> HasPhase(m, k) { ListedKey(m, k); }
    forall k: Key ensures k in DeliverableKeys(m) <==> HasDeliverable(m, k) { ListedKey(m, k); }
  }

  /** A manifest is valid exactly if it states its extensions, the keys of each of its sections are valid, its deliverables have
      a name, a required status and a readable product or none, its scope items a statement and a side, its phases and milestones are
      valid, and its phases can be put in order. */
  lemma ManifestExactly(m: Manifest)
    ensures ValidManifest(m) <==>
            && m.extensionsPresent
            && (forall i | 0 <= i < |m.registers| :: ValidKeys(m.registers[i]))
            && ValidKeys(ScopeKeys(m)) && ValidKeys(DeliverableKeys(m)) && ValidKeys(PhaseKeys(m))
            && ValidKeys(MilestoneKeys(m)) && ValidKeys(m.ruleKeys)
            && (forall i | 0 <= i < |m.deliverables| ::
                  && m.deliverables[i].name != "" && m.deliverables[i].requiredStatus != None
                  && (m.deliverables[i].productText == "" || m.deliverables[i].product != None))
            && (forall i | 0 <= i < |m.scopeItems| ::
                  m.scopeItems[i].statement != "" && m.scopeItems[i].kind in {"in_scope", "out_of_scope"})
            && (forall i | 0 <= i < |m.phases| :: ValidPhase(m, m.phases[i]))
            && (forall i | 0 <= i < |m.milestones| :: ValidMilestone(m, m.milestones[i]))
            && Orderable(GraphOf(m.phases))
  {
    forall i | 0 <= i < |m.deliverables|
      ensures ValidDeliverable(m.deliverables[i]) <==>
              && m.deliverables[i].name != "" && m.deliverables[i].requiredStatus != None
              && (m.deliverables[i].productText == "" || m.deliverables[i].product != None)
    {
    }
    forall i | 0 <= i < |m.scopeItems|
      ensures ValidScopeItem(m.scopeItems[i]) <==>
              m.scopeItems[i].statement != "" && m.scopeItems[i].kind in {"in_scope", "out_of_scope"}
    {
    }
  }

  /** A plan whose dependencies run in a circle is refused. */
  lemma CyclesAreRefused(m: Manifest)
    requires HasCycle(GraphOf(m.phases))
    ensures !ValidManifest(m)
  {
    if Orderable(GraphOf(m.phases)) { OrderExcludesCycles(GraphOf(m.phases)); }
  }
}
