/**
 The metrics collector among concurrent writers. It reads the version of the inputs, then the inputs in several
 statements, reads the version again, records what it computed, and reads the version once more before it commits.
 Any number of collectors and writers interleave between the statements; a writer commits its change together
 with the advance of the version that the outbox trigger makes for its event.
 */
module Collector {
  import opened Wrappers
  import opened Review
  import opened PhaseGraph
  import opened Plan
  import opened LaborRates
  import opened EarnedValue
  import opened Economics
  import opened InputVersions
  import opened Metrics

  // ---------------------------------------------------------------- the collector

  datatype Stage = ReadGeneration | ReadBaseline | FindBaseline | ValidateCosts | QueryPhases | QueryBudget | Recheck | RecordRows
                 | RecordMissing(quality: Quality, detail: string) | Confirm | CommitRows | Abandoned

  /** What one collection has read so far, and the rows it has recorded but not committed. */
  datatype Collection = Collection(stage: Stage, asOf: int, version: nat, generation: nat, baseline: Option<nat>, stated: Option<string>,
                                   found: nat, currency: string, phases: seq<PhaseValues>, bac: nat, rows: seq<Observation>)

  function Begin(version: nat, asOf: int): Collection {
    Collection(ReadGeneration, asOf, version, 0, None, None, 0, "", [], 0, [])
  }

  function Computed(c: Collection): Snapshot {
    Aggregated(c.currency, c.found + 1, c.phases, c.bac)
  }

  function PhaseMetric(p: PhaseValues, metric: string): nat {
    if metric == "economics.pv" then p.pv else if metric == "economics.ac" then p.ac else p.ev
  }

  const PhaseMetrics: seq<string> := ["economics.pv", "economics.ac", "economics.ev"]
  const ProjectMetrics: seq<string> := ["economics.cv", "economics.sv", "economics.cpi", "economics.spi"]

  function ProjectMetric(s: Snapshot, metric: string): Option<int> {
    if metric == "economics.cv" then Some(s.cv)
    else if metric == "economics.sv" then Some(s.sv)
    else if metric == "economics.cpi" then (if s.cpi.Some? then Some(s.cpi.value) else None)
    else (if s.spi.Some? then Some(s.spi.value) else None)
  }

  function PhaseRow(c: Collection, p: PhaseValues, metric: string): Observation {
    Observation(metric, Some(p.key), "currency:" + c.currency, Valid, Some(PhaseMetric(p, metric)), "", c.asOf, c.version, c.baseline, c.generation)
  }

  function ProjectRow(c: Collection, s: Snapshot, metric: string): Observation {
    var value := ProjectMetric(s, metric);
    Observation(metric, None, if metric == "economics.cv" || metric == "economics.sv" then "currency:" + c.currency else "ratio",
                if value.Some? then Valid else NoData, value, if value.Some? then "" else "zero denominator",
                c.asOf, c.version, c.baseline, c.generation)
  }

  /** The unit is filled in with EUR when there was no baseline to state a currency. */
  function MissingRow(c: Collection, k: Key, metric: string, quality: Quality, detail: string): Observation {
    Observation(metric, Some(k), "currency:" + if c.stated.Some? then c.stated.value else "EUR", quality, None, detail, c.asOf, c.version, c.baseline, c.generation)
  }

  function PhaseObservations(c: Collection, ps: seq<PhaseValues>): seq<Observation> {
    if ps == [] then []
    else
      var last := ps[|ps| - 1];
      PhaseObservations(c, ps[..|ps| - 1]) + [PhaseRow(c, last, "economics.pv"), PhaseRow(c, last, "economics.ac"), PhaseRow(c, last, "economics.ev")]
  }

  function Rows(c: Collection): seq<Observation> {
    var s := Computed(c);
    PhaseObservations(c, s.phases)
    + [ProjectRow(c, s, "economics.cv"), ProjectRow(c, s, "economics.sv"), ProjectRow(c, s, "economics.cpi"), ProjectRow(c, s, "economics.spi")]
  }

  function MissingRows(c: Collection, phases: seq<Schedule>, quality: Quality, detail: string): seq<Observation> {
    if phases == [] then []
    else
      var k := phases[|phases| - 1].key;
      MissingRows(c, phases[..|phases| - 1], quality, detail)
      + [MissingRow(c, k, "economics.pv", quality, detail), MissingRow(c, k, "economics.ac", quality, detail),
         MissingRow(c, k, "economics.ev", quality, detail)]
  }

  method RecordPhase(c: Collection, p: PhaseValues) returns (rows: seq<Observation>)
    ensures rows == [PhaseRow(c, p, "economics.pv"), PhaseRow(c, p, "economics.ac"), PhaseRow(c, p, "economics.ev")]
  {
    rows := [];
    for j := 0 to |PhaseMetrics|
      invariant rows == seq(j, n requires 0 <= n < j => PhaseRow(c, p, PhaseMetrics[n]))
    {
      rows := rows + [PhaseRow(c, p, PhaseMetrics[j])];
    }
  }

  method RecordProject(c: Collection, s: Snapshot) returns (rows: seq<Observation>)
    ensures rows == [ProjectRow(c, s, "economics.cv"), ProjectRow(c, s, "economics.sv"),
                     ProjectRow(c, s, "economics.cpi"), ProjectRow(c, s, "economics.spi")]
  {
    rows := [];
    for j := 0 to |ProjectMetrics|
      invariant rows == seq(j, n requires 0 <= n < j => ProjectRow(c, s, ProjectMetrics[n]))
    {
      rows := rows + [ProjectRow(c, s, ProjectMetrics[j])];
    }
  }

  /** Records the metrics of every phase, then those of the project. */
  method RecordSnapshot(c: Collection) returns (rows: seq<Observation>)
    ensures rows == Rows(c)
  {
    var s := Computed(c);
    rows := [];
    for i := 0 to |s.phases|
      invariant rows == PhaseObservations(c, s.phases[..i])
    {
      assert s.phases[..i + 1][..i] == s.phases[..i];
      var phaseRows := RecordPhase(c, s.phases[i]);
      rows := rows + phaseRows;
    }
    assert s.phases[..|s.phases|] == s.phases;
    var projectRows := RecordProject(c, s);
    rows := rows + projectRows;
  }

  method RecordUnavailable(c: Collection, phases: seq<Schedule>, quality: Quality, detail: string) returns (rows: seq<Observation>)
    ensures rows == MissingRows(c, phases, quality, detail)
  {
    rows := [];
    for i := 0 to |phases|
      invariant rows == MissingRows(c, phases[..i], quality, detail)
    {
      assert phases[..i + 1][..i] == phases[..i];
      ghost var before := rows;
      for j := 0 to |PhaseMetrics|
        invariant rows == before + seq(j, n requires 0 <= n < j => MissingRow(c, phases[i].key, PhaseMetrics[n], quality, detail))
      {
        rows := rows + [MissingRow(c, phases[i].key, PhaseMetrics[j], quality, detail)];
      }
    }
    assert phases[..|phases|] == phases;
  }

  // ---------------------------------------------------------------- recording them

  const Day: nat := 86400

  /** The seeded definitions of the metrics of earned value. */
  const EarnedValueMetrics: seq<Definition> :=
    [Definition("economics.pv", "currency", Some(Day), true), Definition("economics.ac", "currency", Some(Day), true),
     Definition("economics.ev", "currency", Some(Day), true), Definition("economics.cv", "currency", Some(Day), false),
     Definition("economics.sv", "currency", Some(Day), false), Definition("economics.cpi", "ratio", Some(Day), false),
     Definition("economics.spi", "ratio", Some(Day), false)]

  lemma Defined(metric: string)
    requires metric in PhaseMetrics || metric in ProjectMetrics
    ensures Find(EarnedValueMetrics, metric).Some?
    ensures Find(EarnedValueMetrics, metric).value.unit == if metric in {"economics.cpi", "economics.spi"} then "ratio" else "currency"
  {
    assert EarnedValueMetrics == EarnedValueMetrics[0..];
    FindStep(EarnedValueMetrics, 0, metric);
    FindStep(EarnedValueMetrics, 1, metric);
    FindStep(EarnedValueMetrics, 2, metric);
    if metric in ProjectMetrics { DefinedForProject(metric); }
  }

  lemma DefinedForProject(metric: string)
    requires metric in ProjectMetrics
    ensures Find(EarnedValueMetrics[3..], metric).Some?
    ensures Find(EarnedValueMetrics[3..], metric).value.unit == if metric in {"economics.cpi", "economics.spi"} then "ratio" else "currency"
  {
    FindStep(EarnedValueMetrics, 3, metric);
    FindStep(EarnedValueMetrics, 4, metric);
    FindStep(EarnedValueMetrics, 5, metric);
    FindStep(EarnedValueMetrics, 6, metric);
  }

  lemma FindStep(defs: seq<Definition>, i: nat, metric: string)
    requires i < |defs|
    ensures Find(defs[i..], metric) == if defs[i].metric == metric then Some(defs[i]) else Find(defs[i + 1..], metric)
  {
    assert defs[i..][1..] == defs[i + 1..];
  }

  lemma CurrencyUnit(currency: string)
    requires |currency| == 3
    ensures |"currency:" + currency| == 12 && ("currency:" + currency)[..9] == "currency:"
  {
  }

  lemma InCurrency(m: nat)
    requires m < |PhaseMetrics|
    ensures Find(EarnedValueMetrics, PhaseMetrics[m]).Some? && Find(EarnedValueMetrics, PhaseMetrics[m]).value.unit == "currency"
  {
    Defined(PhaseMetrics[m]);
  }

  lemma MoneyIsRecorded(o: Observation, letters: string, currency: Option<string>)
    requires Find(EarnedValueMetrics, o.metric).Some? && Find(EarnedValueMetrics, o.metric).value.unit == "currency"
    requires |letters| == 3 && o.unit == "currency:" + letters
    requires HasValue(o.quality) == o.value.Some? && (o.value.None? ==> o.detail != "")
    ensures Metrics.Record(EarnedValueMetrics, o, currency) == Recorded(o)
  {
    CurrencyUnit(letters);
    FittingIsRecorded(EarnedValueMetrics, o, currency);
  }

  /** The registry accepts every row of a collection as it is, for a currency of three letters. */
  lemma PhaseRowRecorded(c: Collection, p: PhaseValues, m: nat)
    requires |c.currency| == 3 && m < |PhaseMetrics|
    ensures var o := PhaseRow(c, p, PhaseMetrics[m]); Metrics.Record(EarnedValueMetrics, o, Some(c.currency)) == Recorded(o)
  {
    InCurrency(m);
    MoneyIsRecorded(PhaseRow(c, p, PhaseMetrics[m]), c.currency, Some(c.currency));
  }

  lemma RatioOrCurrency(m: nat)
    requires m < |ProjectMetrics|
    ensures ProjectMetrics[m] in {"economics.cpi", "economics.spi"} <==> m >= 2
    ensures ProjectMetrics[m] == "economics.cv" || ProjectMetrics[m] == "economics.sv" <==> m < 2
  {
  }

  lemma ProjectRowRecorded(c: Collection, s: Snapshot, m: nat)
    requires |c.currency| == 3 && m < |ProjectMetrics|
    ensures var o := ProjectRow(c, s, ProjectMetrics[m]); Metrics.Record(EarnedValueMetrics, o, Some(c.currency)) == Recorded(o)
  {
    var o := ProjectRow(c, s, ProjectMetrics[m]);
    RatioOrCurrency(m);
    Defined(ProjectMetrics[m]);
    CurrencyUnit(c.currency);
    FittingIsRecorded(EarnedValueMetrics, o, Some(c.currency));
  }

  lemma MissingRowRecorded(c: Collection, k: Key, m: nat, quality: Quality, detail: string)
    requires (c.stated.Some? ==> |c.stated.value| == 3) && m < |PhaseMetrics| && quality in {NoData, Quality.Failed} && detail != ""
    ensures var o := MissingRow(c, k, PhaseMetrics[m], quality, detail); Metrics.Record(EarnedValueMetrics, o, c.stated) == Recorded(o)
  {
    InCurrency(m);
    MoneyIsRecorded(MissingRow(c, k, PhaseMetrics[m], quality, detail), if c.stated.Some? then c.stated.value else "EUR", c.stated);
  }

  // ---------------------------------------------------------------- one statement at a time

  /** The next statement of a collection, on the tables as they are when it runs. */
  ghost function Advance(c: Collection, l: Ledger, version: nat): Collection {
    match c.stage
    case ReadGeneration => c.(stage := ReadBaseline, generation := l.generation)
    case ReadBaseline =>
      var approved := ApprovedBaseline(l.baselines);
      c.(stage := FindBaseline, baseline := approved, stated := if approved.Some? then Some(l.baselines[approved.value].currency) else None)
    case FindBaseline =>
      var approved := ApprovedBaseline(l.baselines);
      if approved.None? then c.(stage := RecordMissing(NoData, "no approved baseline"))
      else c.(stage := ValidateCosts, found := approved.value, currency := l.baselines[approved.value].currency)
    case ValidateCosts =>
      if CostsComplete(l, c.currency, c.asOf) then c.(stage := QueryPhases) else c.(stage := RecordMissing(Quality.Failed, "incomplete costs"))
    case QueryPhases =>
      if c.found < |l.baselines| then c.(stage := QueryBudget, phases := PhaseRows(l, l.baselines[c.found].lines, c.asOf))
      else c.(stage := Abandoned)
    case QueryBudget =>
      if c.found < |l.baselines| then c.(stage := Recheck, bac := Sum(PlannedRows(l.baselines[c.found].lines)))
      else c.(stage := Abandoned)
    case Recheck => if version == c.version then c.(stage := RecordRows) else c.(stage := Abandoned)
    case RecordRows => c.(stage := Confirm, rows := Rows(c))
    case RecordMissing(quality, detail) => c.(stage := CommitRows, rows := MissingRows(c, l.phases, quality, detail))
    case Confirm => if version == c.version then c.(stage := CommitRows) else c.(stage := Abandoned)
    case CommitRows => c
    case Abandoned => c
  }

  // ---------------------------------------------------------------- the system

  /** `history[v]` is the ledger as it was when the version became v; `collections` are the running collectors. */
  datatype System = System(ledger: Ledger, history: seq<Ledger>, observations: seq<Observation>, collections: map<nat, Collection>)

  datatype Step =
    | ByWriter(write: Write)
    | Start(collector: nat, asOf: int)
    | Continue(collector: nat)
    | Commit(collector: nat)

  predicate Possible(s: System, step: Step) {
    match step
    case ByWriter(w) => Accepted(s.ledger, w)
    case Start(c, _) => c !in s.collections
    case Continue(c) => c in s.collections && s.collections[c].stage != CommitRows && s.collections[c].stage != Abandoned
    case Commit(c) => c in s.collections && s.collections[c].stage == CommitRows
  }

  function Version(s: System): nat
    requires s.history != []
  {
    |s.history| - 1
  }

  function Written(s: System, w: Write): System
    requires Accepted(s.ledger, w)
  {
    var after := Applied(s.ledger, w);
    s.(ledger := after, history := if Advances(s.ledger, w) then s.history + [after] else s.history)
  }

  ghost function Next(s: System, step: Step): System
    requires s.history != [] && Possible(s, step)
  {
    match step
    case ByWriter(w) => Written(s, w)
    case Start(c, asOf) => s.(collections := s.collections[c := Begin(Version(s), asOf)])
    case Continue(c) => s.(collections := s.collections[c := Advance(s.collections[c], s.ledger, Version(s))])
    case Commit(c) => s.(observations := s.observations + s.collections[c].rows, collections := s.collections - {c})
  }

  // ---------------------------------------------------------------- what an observation means

  function RowOf(ps: seq<PhaseValues>, k: Key): (r: Option<PhaseValues>)
    ensures r.Some? ==> r.value in ps && r.value.key == k
  {
    if ps == [] then None else if ps[0].key == k then Some(ps[0]) else RowOf(ps[1..], k)
  }

  /** The value of a metric recomputed from a ledger at a date; None when it cannot be computed. */
  ghost function Recomputed(l: Ledger, metric: string, phase: Option<Key>, asOf: int): Option<int> {
    var reply := Evm(l, asOf);
    if !reply.Computed? then None
    else if phase.None? then ProjectMetric(reply.snapshot, metric)
    else
      var row := RowOf(reply.snapshot.phases, phase.value);
      if row.None? then None else Some(PhaseMetric(row.value, metric))
  }

  /** A valid observation of version v holds what the inputs of that version give. */
  ghost predicate Faithful(history: seq<Ledger>, o: Observation) {
    && o.version < |history|
    && (o.quality == Valid ==>
          && o.value.Some?
          && o.value == Recomputed(history[o.version], o.metric, o.phase, o.computedAt)
          && o.baseline == ApprovedBaseline(history[o.version].baselines)
          && o.generation == history[o.version].generation)
  }

  function Progress(stage: Stage): nat {
    match stage
    case ReadGeneration => 0
    case ReadBaseline => 1
    case FindBaseline => 2
    case ValidateCosts => 3
    case QueryPhases => 4
    case QueryBudget => 5
    case Recheck => 6
    case RecordRows => 7
    case Confirm => 8
    case _ => 9
  }

  /** What the collection has read is what the ledger l says. */
  ghost predicate Agrees(c: Collection, l: Ledger)
    requires Progress(c.stage) <= 8
  {
    var n := Progress(c.stage);
    && (n >= 1 ==> c.generation == l.generation)
    && (n >= 2 ==> c.baseline == ApprovedBaseline(l.baselines))
    && (n >= 3 ==> ApprovedBaseline(l.baselines) == Some(c.found) && c.currency == l.baselines[c.found].currency)
    && (n >= 4 ==> CostsComplete(l, c.currency, c.asOf))
    && (n >= 5 ==> c.phases == PhaseRows(l, l.baselines[c.found].lines, c.asOf))
    && (n >= 6 ==> c.bac == Sum(PlannedRows(l.baselines[c.found].lines)))
  }

  ghost predicate CollectionSound(s: System, c: Collection)
    requires s.history != []
  {
    && c.version <= Version(s)
    && (Progress(c.stage) <= 8 && c.version == Version(s) ==> Agrees(c, s.ledger))
    && (c.stage.RecordMissing? ==> c.stage.quality != Valid)
    && (c.stage == Confirm ==> c.rows == Rows(c))
    && (c.stage == CommitRows ==> forall i | 0 <= i < |c.rows| :: Faithful(s.history, c.rows[i]))
  }

  ghost predicate Invariant(s: System) {
    && s.history != []
    && SameReadings(s.history[Version(s)], s.ledger)
    && Keyed(s.ledger)
    && (forall c | c in s.collections :: CollectionSound(s, s.collections[c]))
    && (forall i | 0 <= i < |s.observations| :: Faithful(s.history, s.observations[i]))
  }

  // ---------------------------------------------------------------- writers keep it

  lemma SameReadingsTransitive(a: Ledger, b: Ledger, c: Ledger)
    requires SameReadings(a, b) && SameReadings(b, c)
    ensures SameReadings(a, c)
  {
  }

  lemma AgreesStays(c: Collection, l: Ledger, m: Ledger)
    requires Progress(c.stage) <= 8 && Agrees(c, l) && SameReadings(l, m)
    ensures Agrees(c, m)
  {
    SameApprovedBaseline(l.baselines, m.baselines);
    if Progress(c.stage) >= 3 {
      assert m.baselines[c.found] == l.baselines[c.found];
      SameComplete(l, m, c.currency, c.asOf);
      SameRows(l, m, l.baselines[c.found].lines, c.asOf);
    }
  }

  lemma WriteKeepsCollection(s: System, w: Write, c: Collection)
    requires s.history != [] && LinksRefer(s.ledger) && Accepted(s.ledger, w) && CollectionSound(s, c)
    ensures CollectionSound(Written(s, w), c)
  {
    if !Advances(s.ledger, w) {
      QuietWrite(s.ledger, w);
      if Progress(c.stage) <= 8 && c.version == Version(s) { AgreesStays(c, s.ledger, Applied(s.ledger, w)); }
    }
  }

  lemma WriteKeeps(s: System, w: Write)
    requires Invariant(s) && Accepted(s.ledger, w)
    ensures Invariant(Written(s, w))
  {
    var after := Written(s, w);
    WriteKeepsKeys(s.ledger, w);
    if !Advances(s.ledger, w) {
      QuietWrite(s.ledger, w);
      SameReadingsTransitive(s.history[Version(s)], s.ledger, after.ledger);
    }
    forall c | c in after.collections ensures CollectionSound(after, after.collections[c]) {
      WriteKeepsCollection(s, w, s.collections[c]);
    }
  }

  // ---------------------------------------------------------------- collectors keep it

  lemma {:induction false} RowOfAt(ps: seq<PhaseValues>, i: nat)
    requires i < |ps| && forall j, k | 0 <= j < k < |ps| :: ps[j].key != ps[k].key
    ensures RowOf(ps, ps[i].key) == Some(ps[i])
  {
    if i > 0 { RowOfAt(ps[1..], i - 1); }
  }

  lemma {:induction false} PhaseObservationsAre(c: Collection, ps: seq<PhaseValues>, o: Observation)
    requires o in PhaseObservations(c, ps)
    ensures exists i, m | 0 <= i < |ps| && 0 <= m < 3 :: o == PhaseRow(c, ps[i], PhaseMetrics[m])
  {
    var last := |ps| - 1;
    if o in PhaseObservations(c, ps[..last]) {
      PhaseObservationsAre(c, ps[..last], o);
      var i, m :| 0 <= i < last && 0 <= m < 3 && o == PhaseRow(c, ps[..last][i], PhaseMetrics[m]);
      assert o == PhaseRow(c, ps[i], PhaseMetrics[m]);
    } else {
      var m := if o.metric == "economics.pv" then 0 else if o.metric == "economics.ac" then 1 else 2;
      assert o == PhaseRow(c, ps[last], PhaseMetrics[m]);
    }
  }

  /** The snapshot a collection has put together is the one its ledger gives. */
  lemma AgreedSnapshot(c: Collection, l: Ledger)
    requires 7 <= Progress(c.stage) <= 8 && Agrees(c, l)
    ensures Evm(l, c.asOf) == EvmReply.Computed(Computed(c))
  {
  }

  lemma AgreedPhaseRow(c: Collection, l: Ledger, i: nat, metric: string)
    requires 7 <= Progress(c.stage) <= 8 && Agrees(c, l) && DistinctKeys(l.phases) && i < |Computed(c).phases|
    ensures var o := PhaseRow(c, Computed(c).phases[i], metric);
            o.value == Recomputed(l, o.metric, o.phase, o.computedAt)
  {
    AgreedSnapshot(c, l);
    var ps := Computed(c).phases;
    assert forall j | 0 <= j < |ps| :: ps[j].key == l.phases[j].key;
    RowOfAt(ps, i);
  }

  lemma AgreedProjectRow(c: Collection, l: Ledger, metric: string)
    requires 7 <= Progress(c.stage) <= 8 && Agrees(c, l)
    ensures var o := ProjectRow(c, Computed(c), metric);
            o.value == Recomputed(l, o.metric, o.phase, o.computedAt)
  {
    AgreedSnapshot(c, l);
  }

  lemma ProjectRowAt(c: Collection, m: nat)
    requires m < 4
    ensures var n := |PhaseObservations(c, Computed(c).phases)|;
            |Rows(c)| == n + 4 && Rows(c)[n + m] == ProjectRow(c, Computed(c), ProjectMetrics[m])
  {
  }

  lemma RowCases(c: Collection, o: Observation)
    requires o in Rows(c)
    ensures o in PhaseObservations(c, Computed(c).phases) || exists m | 0 <= m < 4 :: o == ProjectRow(c, Computed(c), ProjectMetrics[m])
  {
    var ofPhases := PhaseObservations(c, Computed(c).phases);
    var j :| 0 <= j < |Rows(c)| && Rows(c)[j] == o;
    ProjectRowAt(c, 0);
    if j >= |ofPhases| { ProjectRowAt(c, j - |ofPhases|); }
  }

  lemma AgreedRowsFaithful(c: Collection, l: Ledger, o: Observation)
    requires 7 <= Progress(c.stage) <= 8 && Agrees(c, l) && DistinctKeys(l.phases) && o in Rows(c)
    ensures o.version == c.version && o.computedAt == c.asOf && o.baseline == ApprovedBaseline(l.baselines) && o.generation == l.generation
    ensures o.quality == Valid ==> o.value.Some? && o.value == Recomputed(l, o.metric, o.phase, o.computedAt)
  {
    var ps := Computed(c).phases;
    RowCases(c, o);
    if o in PhaseObservations(c, ps) {
      PhaseObservationsAre(c, ps, o);
      var i, m :| 0 <= i < |ps| && 0 <= m < 3 && o == PhaseRow(c, ps[i], PhaseMetrics[m]);
      AgreedPhaseRow(c, l, i, PhaseMetrics[m]);
    } else {
      var m :| 0 <= m < 4 && o == ProjectRow(c, Computed(c), ProjectMetrics[m]);
      AgreedProjectRow(c, l, ProjectMetrics[m]);
    }
  }

  lemma {:induction false} MissingRowsHaveNoValue(c: Collection, phases: seq<Schedule>, quality: Quality, detail: string, i: nat)
    requires i < |MissingRows(c, phases, quality, detail)|
    ensures var o := MissingRows(c, phases, quality, detail)[i]; o.quality == quality && o.value.None? && o.version == c.version
  {
    var last := |phases| - 1;
    if i < |MissingRows(c, phases[..last], quality, detail)| { MissingRowsHaveNoValue(c, phases[..last], quality, detail, i); }
  }

  /** Reading the next statement keeps what was read and adds what the ledger says now. */
  lemma AdvanceAgrees(c: Collection, l: Ledger, version: nat)
    requires Progress(c.stage) <= 6 && c.version == version && Agrees(c, l)
    ensures var next := Advance(c, l, version); Progress(next.stage) <= 8 ==> Agrees(next, l)
  {
  }

  /** A collection never passes the recheck, and never confirms, once the version has moved on. */
  lemma ReadingKeeps(s: System, id: nat)
    requires Invariant(s) && id in s.collections && Progress(s.collections[id].stage) <= 6
    ensures CollectionSound(s, Advance(s.collections[id], s.ledger, Version(s)))
  {
    var c := s.collections[id];
    if c.version == Version(s) { AdvanceAgrees(c, s.ledger, Version(s)); }
  }

  lemma MissingKeeps(s: System, c: Collection)
    requires s.history != [] && CollectionSound(s, c) && c.stage.RecordMissing?
    ensures CollectionSound(s, Advance(c, s.ledger, Version(s)))
  {
    var rows := MissingRows(c, s.ledger.phases, c.stage.quality, c.stage.detail);
    forall i | 0 <= i < |rows| ensures Faithful(s.history, rows[i]) {
      MissingRowsHaveNoValue(c, s.ledger.phases, c.stage.quality, c.stage.detail, i);
    }
  }

  lemma SameRecomputed(l: Ledger, m: Ledger, metric: string, phase: Option<Key>, asOf: int)
    requires SameReadings(l, m)
    ensures Recomputed(l, metric, phase, asOf) == Recomputed(m, metric, phase, asOf)
    ensures ApprovedBaseline(l.baselines) == ApprovedBaseline(m.baselines) && l.generation == m.generation
  {
    SameEvm(l, m, asOf);
  }

  /** What the recorded row says of the present ledger, it says of the ledger of its version. */
  lemma RowOfVersion(history: seq<Ledger>, l: Ledger, o: Observation)
    requires o.version < |history| && SameReadings(history[o.version], l)
    requires o.baseline == ApprovedBaseline(l.baselines) && o.generation == l.generation
    requires o.quality == Valid ==> o.value.Some? && o.value == Recomputed(l, o.metric, o.phase, o.computedAt)
    ensures Faithful(history, o)
  {
    SameRecomputed(history[o.version], l, o.metric, o.phase, o.computedAt);
  }

  lemma ConfirmKeeps(s: System, c: Collection)
    requires s.history != [] && CollectionSound(s, c) && c.stage == Confirm
    requires SameReadings(s.history[Version(s)], s.ledger) && DistinctKeys(s.ledger.phases)
    ensures CollectionSound(s, Advance(c, s.ledger, Version(s)))
  {
    if c.version == Version(s) {
      forall i | 0 <= i < |c.rows| ensures Faithful(s.history, c.rows[i]) {
        AgreedRowsFaithful(c, s.ledger, c.rows[i]);
        RowOfVersion(s.history, s.ledger, c.rows[i]);
      }
    }
  }

  lemma {:induction false} SameObservations(c: Collection, d: Collection, ps: seq<PhaseValues>)
    requires d == c.(stage := d.stage, rows := d.rows)
    ensures PhaseObservations(c, ps) == PhaseObservations(d, ps)
  {
    if ps != [] { SameObservations(c, d, ps[..|ps| - 1]); }
  }

  lemma RecordRowsKeeps(s: System, c: Collection)
    requires s.history != [] && CollectionSound(s, c) && c.stage == RecordRows
    ensures CollectionSound(s, Advance(c, s.ledger, Version(s)))
  {
    var next := Advance(c, s.ledger, Version(s));
    assert Computed(next) == Computed(c);
    SameObservations(c, next, Computed(c).phases);
    assert Rows(next) == Rows(c);
  }

  lemma RecordingKeeps(s: System, id: nat)
    requires Invariant(s) && id in s.collections && Possible(s, Continue(id)) && Progress(s.collections[id].stage) > 6
    ensures CollectionSound(s, Advance(s.collections[id], s.ledger, Version(s)))
  {
    var c := s.collections[id];
    match c.stage
    case RecordRows => RecordRowsKeeps(s, c);
    case RecordMissing(_, _) => MissingKeeps(s, c);
    case Confirm => ConfirmKeeps(s, c);
  }

  lemma ContinueKeeps(s: System, id: nat)
    requires Invariant(s) && Possible(s, Continue(id))
    ensures Invariant(Next(s, Continue(id)))
  {
    if Progress(s.collections[id].stage) <= 6 { ReadingKeeps(s, id); } else { RecordingKeeps(s, id); }
  }

  lemma NextKeeps(s: System, step: Step)
    requires Invariant(s) && Possible(s, step)
    ensures Invariant(Next(s, step))
  {
    match step
    case ByWriter(w) => WriteKeeps(s, w);
    case Start(_, _) =>
    case Continue(id) => ContinueKeeps(s, id);
    case Commit(_) =>
  }

  // ---------------------------------------------------------------- runs

  ghost predicate PossibleRun(s: System, steps: seq<Step>)
    requires s.history != []
    decreases |steps|
  {
    steps == [] || (Possible(s, steps[0]) && PossibleRun(Next(s, steps[0]), steps[1..]))
  }

  ghost function Run(s: System, steps: seq<Step>): (after: System)
    requires s.history != [] && PossibleRun(s, steps)
    ensures after.history != []
    decreases |steps|
  {
    if steps == [] then s else Run(Next(s, steps[0]), steps[1..])
  }

  lemma {:induction false} RunKeeps(s: System, steps: seq<Step>)
    requires Invariant(s) && PossibleRun(s, steps)
    ensures Invariant(Run(s, steps))
    decreases |steps|
  {
    if steps != [] {
      NextKeeps(s, steps[0]);
      RunKeeps(Next(s, steps[0]), steps[1..]);
    }
  }

  function Initial(l: Ledger): System {
    System(l, [l], [], map[])
  }

  lemma InitialIsSound(l: Ledger)
    requires Keyed(l)
    ensures Invariant(Initial(l))
  {
  }

  /** Whatever writers commit between its reads, an observation recorded as valid under version v
      holds the values computed from the inputs as they were at v. */
  lemma ValidMeansComputed(l: Ledger, steps: seq<Step>, i: nat)
    requires Keyed(l) && PossibleRun(Initial(l), steps)
    requires i < |Run(Initial(l), steps).observations| && Run(Initial(l), steps).observations[i].quality == Valid
    ensures var s := Run(Initial(l), steps);
            var o := s.observations[i];
            && o.version <= Version(s)
            && o.value.Some? && o.value == Recomputed(s.history[o.version], o.metric, o.phase, o.computedAt)
  {
    InitialIsSound(l);
    RunKeeps(Initial(l), steps);
  }

  ghost function PresentOf(s: System): Present
    requires s.history != []
  {
    Present(Version(s), ApprovedBaseline(s.ledger.baselines), s.ledger.generation)
  }

  /** An observation that is still reported valid equals recomputation from the present inputs, at the time it was computed for. */
  lemma ReportedMeansCurrent(l: Ledger, steps: seq<Step>, def: Definition, phase: Option<Key>, asOf: int)
    requires Keyed(l) && PossibleRun(Initial(l), steps)
    requires var s := Run(Initial(l), steps);
             var o := Metrics.Latest(s.observations, def, phase, PresentOf(s), asOf); o.Some? && o.value.quality == Valid
    ensures var s := Run(Initial(l), steps);
            var o := Metrics.Latest(s.observations, def, phase, PresentOf(s), asOf).value;
            o.value.Some? && o.value == Recomputed(s.ledger, def.metric, phase, o.computedAt)
  {
    InitialIsSound(l);
    RunKeeps(Initial(l), steps);
    var s := Run(Initial(l), steps);
    var i := LatestIndex(s.observations, def.metric, phase).value;
    assert Faithful(s.history, s.observations[i]);
    ReportedValidExactly(s.observations[i], def, PresentOf(s), asOf);
    SameEvm(s.history[Version(s)], s.ledger, s.observations[i].computedAt);
  }

  /** A gate without blockers stands on current values: for every required metric of the phase the latest observation
      is not too old and equals recomputation from the present inputs, at the time it was computed for. */
  lemma OpenGateIsCurrent(l: Ledger, steps: seq<Step>, defs: seq<Definition>, phase: Option<Key>, asOf: int)
    requires Keyed(l) && PossibleRun(Initial(l), steps)
    requires var s := Run(Initial(l), steps);
             forall i | 0 <= i < |defs| :: !Blocks(s.observations, defs[i], phase, PresentOf(s), asOf)
    ensures var s := Run(Initial(l), steps);
            forall i | 0 <= i < |defs| && defs[i].required ::
              var o := Metrics.Latest(s.observations, defs[i], phase, PresentOf(s), asOf);
              && o.Some? && o.value.value.Some?
              && o.value.value == Recomputed(s.ledger, defs[i].metric, phase, o.value.computedAt)
              && (defs[i].maxAge.Some? ==> asOf - o.value.computedAt <= defs[i].maxAge.value)
  {
    var s := Run(Initial(l), steps);
    forall i | 0 <= i < |defs| && defs[i].required
      ensures var o := Metrics.Latest(s.observations, defs[i], phase, PresentOf(s), asOf);
              && o.Some? && o.value.value.Some?
              && o.value.value == Recomputed(s.ledger, defs[i].metric, phase, o.value.computedAt)
              && (defs[i].maxAge.Some? ==> asOf - o.value.computedAt <= defs[i].maxAge.value)
    {
      assert !Blocks(s.observations, defs[i], phase, PresentOf(s), asOf);
      ReportedMeansCurrent(l, steps, defs[i], phase, asOf);
    }
  }

  /** In no reachable state does the comparison of baseline or generation add anything to that of the version:
      an observation of the present version carries the present baseline and generation. */
  lemma VersionSuffices(l: Ledger, steps: seq<Step>, i: nat)
    requires Keyed(l) && PossibleRun(Initial(l), steps)
    requires i < |Run(Initial(l), steps).observations| && Run(Initial(l), steps).observations[i].quality == Valid
    requires Run(Initial(l), steps).observations[i].version == Version(Run(Initial(l), steps))
    ensures var s := Run(Initial(l), steps);
            s.observations[i].baseline == PresentOf(s).baseline && s.observations[i].generation == PresentOf(s).generation
  {
    InitialIsSound(l);
    RunKeeps(Initial(l), steps);
    var s := Run(Initial(l), steps);
    SameEvm(s.history[Version(s)], s.ledger, s.observations[i].computedAt);
  }

  // ---------------------------------------------------------------- which value goes under which name

  /** The rows of a snapshot: for each phase its planned value, actual cost and earned value under their names, all valid. */
  lemma PhaseRowsPresent(c: Collection, i: nat)
    requires i < |Computed(c).phases|
    ensures var p := Computed(c).phases[i];
            && HasRow(Rows(c), "economics.pv", Some(p.key), Valid, Some(p.pv))
            && HasRow(Rows(c), "economics.ac", Some(p.key), Valid, Some(p.ac))
            && HasRow(Rows(c), "economics.ev", Some(p.key), Valid, Some(p.ev))
  {
    var ps := Computed(c).phases;
    PhaseObservationsHave(c, ps, i);
    forall o | o in PhaseObservations(c, ps) ensures o in Rows(c) {}
  }

  predicate HasRow(rows: seq<Observation>, metric: string, phase: Option<Key>, quality: Quality, value: Option<int>) {
    exists o | o in rows :: o.metric == metric && o.phase == phase && o.quality == quality && o.value == value
  }

  lemma {:induction false} PhaseObservationsHave(c: Collection, ps: seq<PhaseValues>, i: nat)
    requires i < |ps|
    ensures HasRow(PhaseObservations(c, ps), "economics.pv", Some(ps[i].key), Valid, Some(ps[i].pv))
    ensures HasRow(PhaseObservations(c, ps), "economics.ac", Some(ps[i].key), Valid, Some(ps[i].ac))
    ensures HasRow(PhaseObservations(c, ps), "economics.ev", Some(ps[i].key), Valid, Some(ps[i].ev))
  {
    var n := |ps| - 1;
    if i < n {
      PhaseObservationsHave(c, ps[..n], i);
    } else {
      var k := |PhaseObservations(c, ps[..n])|;
      assert PhaseObservations(c, ps)[k] == PhaseRow(c, ps[n], "economics.pv");
      assert PhaseObservations(c, ps)[k + 1] == PhaseRow(c, ps[n], "economics.ac");
      assert PhaseObservations(c, ps)[k + 2] == PhaseRow(c, ps[n], "economics.ev");
    }
  }

  /** And for the project its variances, valid, and its indices, valid if they have a value. */
  lemma ProjectRowsPresent(c: Collection)
    ensures var s := Computed(c);
            && HasRow(Rows(c), "economics.cv", None, Valid, Some(s.cv))
            && HasRow(Rows(c), "economics.sv", None, Valid, Some(s.sv))
            && (if s.cpi.Some? then HasRow(Rows(c), "economics.cpi", None, Valid, Some(s.cpi.value))
                else HasRow(Rows(c), "economics.cpi", None, NoData, None))
            && (if s.spi.Some? then HasRow(Rows(c), "economics.spi", None, Valid, Some(s.spi.value))
                else HasRow(Rows(c), "economics.spi", None, NoData, None))
  {
    var s := Computed(c);
    var n := |PhaseObservations(c, s.phases)|;
    assert Rows(c)[n] == ProjectRow(c, s, "economics.cv") && Rows(c)[n + 1] == ProjectRow(c, s, "economics.sv");
    assert Rows(c)[n + 2] == ProjectRow(c, s, "economics.cpi") && Rows(c)[n + 3] == ProjectRow(c, s, "economics.spi");
  }

  /** The snapshot has a row of the phase whose value under the name of the metric is this. */
  predicate PhaseSays(s: Snapshot, metric: string, k: Key, value: int) {
    exists j | 0 <= j < |s.phases| ::
      && s.phases[j].key == k
      && (metric == "economics.pv" ==> value == s.phases[j].pv)
      && (metric == "economics.ac" ==> value == s.phases[j].ac)
      && (metric == "economics.ev" ==> value == s.phases[j].ev)
  }

  predicate ProjectSays(s: Snapshot, metric: string, value: int) {
    && (metric == "economics.cv" ==> value == s.cv)
    && (metric == "economics.sv" ==> value == s.sv)
    && (metric == "economics.cpi" ==> s.cpi.Some? && value == s.cpi.value)
    && (metric == "economics.spi" ==> s.spi.Some? && value == s.spi.value)
  }

  /** The value is that of the metric in the earned value computed from the ledger at the date. */
  ghost predicate InSnapshot(l: Ledger, asOf: int, metric: string, phase: Option<Key>, value: int) {
    && Evm(l, asOf).Computed?
    && if phase.Some? then PhaseSays(Evm(l, asOf).snapshot, metric, phase.value, value)
       else ProjectSays(Evm(l, asOf).snapshot, metric, value)
  }

  lemma RecomputedIsInSnapshot(l: Ledger, metric: string, phase: Option<Key>, asOf: int)
    requires Recomputed(l, metric, phase, asOf).Some?
    ensures InSnapshot(l, asOf, metric, phase, Recomputed(l, metric, phase, asOf).value)
  {
    var s := Evm(l, asOf).snapshot;
    if phase.Some? {
      var row := RowOf(s.phases, phase.value).value;
      var j :| 0 <= j < |s.phases| && s.phases[j] == row;
    }
  }

  /** What a valid observation says: whatever writers commit between the reads of its collector, a planned value is that of its
      phase in the snapshot of its version, and so with actual cost, earned value, the variances and the indices. */
  lemma ValidIsInSnapshot(l: Ledger, steps: seq<Step>, i: nat)
    requires Keyed(l) && PossibleRun(Initial(l), steps)
    requires i < |Run(Initial(l), steps).observations| && Run(Initial(l), steps).observations[i].quality == Valid
    ensures var s := Run(Initial(l), steps);
            var o := s.observations[i];
            && o.version <= Version(s) && o.value.Some?
            && InSnapshot(s.history[o.version], o.computedAt, o.metric, o.phase, o.value.value)
  {
    ValidMeansComputed(l, steps, i);
    var o := Run(Initial(l), steps).observations[i];
    RecomputedIsInSnapshot(Run(Initial(l), steps).history[o.version], o.metric, o.phase, o.computedAt);
  }

  /** An open gate on a phase stands on its planned value, actual cost and earned value as the present inputs give them, at a
      time no more than a day ago. */
  lemma OpenGateShowsSnapshot(l: Ledger, steps: seq<Step>, k: Key, asOf: int, metric: string)
    requires Keyed(l) && PossibleRun(Initial(l), steps) && metric in {"economics.pv", "economics.ac", "economics.ev"}
    requires var s := Run(Initial(l), steps);
             forall i | 0 <= i < |EarnedValueMetrics| :: !Blocks(s.observations, EarnedValueMetrics[i], Some(k), PresentOf(s), asOf)
    ensures var s := Run(Initial(l), steps);
            exists o | o in s.observations ::
              && o.metric == metric && o.phase == Some(k) && o.value.Some? && asOf - o.computedAt <= 24 * 60 * 60
              && InSnapshot(s.ledger, o.computedAt, metric, Some(k), o.value.value)
  {
    var s := Run(Initial(l), steps);
    var n := MetricIndex(metric);
    assert !Blocks(s.observations, EarnedValueMetrics[n], Some(k), PresentOf(s), asOf);
    ReportedMeansCurrent(l, steps, EarnedValueMetrics[n], Some(k), asOf);
    LatestIsYoung(s.observations, EarnedValueMetrics[n], Some(k), PresentOf(s), asOf);
    var o := s.observations[LatestIndex(s.observations, metric, Some(k)).value];
    RecomputedIsInSnapshot(s.ledger, metric, Some(k), o.computedAt);
  }

  function MetricIndex(metric: string): (n: nat)
    requires metric in {"economics.pv", "economics.ac", "economics.ev"}
    ensures n < |EarnedValueMetrics| && EarnedValueMetrics[n] == Definition(metric, "currency", Some(24 * 60 * 60), true)
  {
    if metric == "economics.pv" then 0 else if metric == "economics.ac" then 1 else 2
  }

  lemma LatestIsYoung(rows: seq<Observation>, def: Definition, phase: Option<Key>, now: Present, asOf: int)
    requires Metrics.Latest(rows, def, phase, now, asOf).Some? && Metrics.Latest(rows, def, phase, now, asOf).value.quality == Valid
    requires def.maxAge.Some?
    ensures var i := LatestIndex(rows, def.metric, phase);
            && i.Some? && rows[i.value].metric == def.metric && rows[i.value].phase == phase
            && asOf - rows[i.value].computedAt <= def.maxAge.value
  {
    ReportedValidExactly(rows[LatestIndex(rows, def.metric, phase).value], def, now, asOf);
  }

  // ---------------------------------------------------------------- what is recorded when there is nothing to compute

  lemma HasRowAt(rows: seq<Observation>, i: nat)
    requires i < |rows|
    ensures HasRow(rows, rows[i].metric, rows[i].phase, rows[i].quality, rows[i].value)
  {
  }

  lemma MoreRows(rows: seq<Observation>, more: seq<Observation>, metric: string, phase: Option<Key>, quality: Quality, value: Option<int>)
    requires HasRow(rows, metric, phase, quality, value)
    ensures HasRow(rows + more, metric, phase, quality, value)
  {
  }

  lemma {:induction false} MissingRowsHave(c: Collection, phases: seq<Schedule>, quality: Quality, detail: string, i: nat)
    requires i < |phases|
    ensures AllMissing(MissingRows(c, phases, quality, detail), phases[i].key, quality)
  {
    var n := |phases| - 1;
    var before, k := MissingRows(c, phases[..n], quality, detail), phases[n].key;
    var more := [MissingRow(c, k, "economics.pv", quality, detail), MissingRow(c, k, "economics.ac", quality, detail),
                 MissingRow(c, k, "economics.ev", quality, detail)];
    assert MissingRows(c, phases, quality, detail) == before + more;
    if i < n {
      MissingRowsHave(c, phases[..n], quality, detail, i);
      MoreMissing(before, more, phases[i].key, quality);
    } else {
      LastMissing(before, more, k, quality);
    }
  }

  lemma MoreMissing(before: seq<Observation>, more: seq<Observation>, k: Key, quality: Quality)
    requires AllMissing(before, k, quality)
    ensures AllMissing(before + more, k, quality)
  {
    MoreRows(before, more, "economics.pv", Some(k), quality, None);
    MoreRows(before, more, "economics.ac", Some(k), quality, None);
    MoreRows(before, more, "economics.ev", Some(k), quality, None);
  }

  lemma LastMissing(before: seq<Observation>, more: seq<Observation>, k: Key, quality: Quality)
    requires |more| == 3 && more[0].metric == "economics.pv" && more[1].metric == "economics.ac" && more[2].metric == "economics.ev"
    requires forall i | 0 <= i < 3 :: more[i].phase == Some(k) && more[i].quality == quality && more[i].value == None
    ensures AllMissing(before + more, k, quality)
  {
    var rows, n := before + more, |before|;
    HasRowAt(rows, n);
    HasRowAt(rows, n + 1);
    HasRowAt(rows, n + 2);
  }

  /** The row of the i-th phase under each of the three names has this quality and no value. */
  predicate AllMissing(rows: seq<Observation>, k: Key, quality: Quality) {
    && HasRow(rows, "economics.pv", Some(k), quality, None) && HasRow(rows, "economics.ac", Some(k), quality, None)
    && HasRow(rows, "economics.ev", Some(k), quality, None)
  }

  lemma MissingIsRecorded(c: Collection, m: Ledger, later: nat, i: nat)
    requires i < |m.phases| && c.stage.RecordMissing?
    ensures AllMissing(Advance(c, m, later).rows, m.phases[i].key, c.stage.quality)
  {
    MissingRowsHave(c, m.phases, c.stage.quality, c.stage.detail, i);
  }

  /** Without an approved baseline every metric of every phase is recorded as having no data. */
  lemma NoBaselineIsRecorded(c: Collection, l: Ledger, m: Ledger, version: nat, later: nat, i: nat)
    requires i < |m.phases| && c.stage == FindBaseline && forall j | 0 <= j < |l.baselines| :: l.baselines[j].status != BaselineApproved
    ensures AllMissing(Advance(Advance(c, l, version), m, later).rows, m.phases[i].key, NoData)
  {
    MissingIsRecorded(Advance(c, l, version), m, later, i);
  }

  /** With incomplete costs, as having failed. */
  lemma IncompleteIsRecorded(c: Collection, l: Ledger, m: Ledger, version: nat, later: nat, i: nat)
    requires i < |m.phases| && c.stage == ValidateCosts && !CostsComplete(l, c.currency, c.asOf)
    ensures AllMissing(Advance(Advance(c, l, version), m, later).rows, m.phases[i].key, Quality.Failed)
  {
    MissingIsRecorded(Advance(c, l, version), m, later, i);
  }

  /** A collection that finds the version moved on, before it records or before it commits, is abandoned. */
  lemma StaleIsAbandoned(c: Collection, l: Ledger, version: nat)
    requires (c.stage == Recheck || c.stage == Confirm) && version != c.version
    ensures Advance(c, l, version).stage == Abandoned
  {
  }
}
