/**
 The registry of metrics: observations are only appended, each with the version of the inputs it was computed from,
 and their quality is judged when they are read. A phase gate is blocked by every required metric that is not valid now.
 */
module Metrics {
  import opened Wrappers
  import opened PhaseGraph

  datatype Quality = Valid | Stale | NoData | Failed

  /** `phase` is None for a metric of the whole project. Times are in seconds. */
  datatype Observation = Observation(metric: string, phase: Option<Key>, unit: string, quality: Quality, value: Option<int>,
                                     detail: string, computedAt: int, version: nat, baseline: Option<nat>, generation: nat)

  datatype Definition = Definition(metric: string, unit: string, maxAge: Option<nat>, required: bool)

  /** The versions an observation is compared with when it is read. */
  datatype Present = Present(version: nat, baseline: Option<nat>, generation: nat)

  // ---------------------------------------------------------------- recording

  datatype RecordReply = Recorded(row: Observation) | UnknownMetric | ValueMissing | UnitMismatch | AbsenceMalformed

  function Find(defs: seq<Definition>, metric: string): (r: Option<Definition>)
    ensures r.Some? ==> r.value in defs && r.value.metric == metric
    ensures r.None? ==> forall i | 0 <= i < |defs| :: defs[i].metric != metric
  {
    if defs == [] then None else if defs[0].metric == metric then Some(defs[0]) else Find(defs[1..], metric)
  }

  predicate HasValue(q: Quality) {
    q == Valid || q == Stale
  }

  predicate UnitFits(def: Definition, unit: string) {
    if def.unit == "currency" then |unit| == 12 && unit[..9] == "currency:" else unit == def.unit
  }

  /** An empty unit is filled in: from the definition, and for money from the baseline's currency. */
  function FillUnit(def: Definition, unit: string, currency: Option<string>): string {
    if unit != "" then unit
    else if def.unit != "currency" then def.unit
    else "currency:" + if currency.Some? then currency.value else "EUR"
  }

  /** `currency` is that of the baseline the observation refers to. */
  function Record(defs: seq<Definition>, o: Observation, currency: Option<string>): RecordReply {
    var def := Find(defs, o.metric);
    if def.None? then UnknownMetric
    else if HasValue(o.quality) && o.value.None? then ValueMissing
    else
      var row := o.(unit := FillUnit(def.value, o.unit, currency));
      if !UnitFits(def.value, row.unit) then UnitMismatch
      else if !HasValue(o.quality) && (o.value.Some? || o.detail == "") then AbsenceMalformed
      else Recorded(row)
  }

  /** A recorded row has a value exactly when its quality says so, and the unit of its metric; only the unit was filled in. */
  lemma RecordedIsTyped(defs: seq<Definition>, o: Observation, currency: Option<string>)
    requires Record(defs, o, currency).Recorded?
    ensures var row := Record(defs, o, currency).row;
            && (row.value.Some? <==> row.quality == Valid || row.quality == Stale)
            && row == o.(unit := row.unit)
            && Find(defs, o.metric).Some? && UnitFits(Find(defs, o.metric).value, row.unit)
  {
  }

  /** An observation with a fitting unit, and a value exactly if its quality says so, is recorded as it is. */
  lemma FittingIsRecorded(defs: seq<Definition>, o: Observation, currency: Option<string>)
    requires Find(defs, o.metric).Some? && o.unit != "" && UnitFits(Find(defs, o.metric).value, o.unit)
    requires HasValue(o.quality) == o.value.Some? && (o.value.None? ==> o.detail != "")
    ensures Record(defs, o, currency) == Recorded(o)
  {
  }

  // ---------------------------------------------------------------- reading

  predicate Of(o: Observation, metric: string, phase: Option<Key>) {
    o.metric == metric && o.phase == phase
  }

  /** The newest observation: by the time it was computed for, then by insertion. */
  function LatestIndex(rows: seq<Observation>, metric: string, phase: Option<Key>): (r: Option<nat>)
    ensures r.Some? ==> r.value < |rows| && Of(rows[r.value], metric, phase)
    ensures r.Some? ==> forall i | 0 <= i < |rows| && Of(rows[i], metric, phase) ::
                          rows[i].computedAt < rows[r.value].computedAt
                          || (rows[i].computedAt == rows[r.value].computedAt && i <= r.value)
    ensures r.None? ==> forall i | 0 <= i < |rows| :: !Of(rows[i], metric, phase)
  {
    if rows == [] then None
    else
      var last := |rows| - 1;
      var before := LatestIndex(rows[..last], metric, phase);
      if Of(rows[last], metric, phase) && (before.None? || rows[before.value].computedAt <= rows[last].computedAt) then Some(last)
      else before
  }

  predicate SameOptional<T(==)>(first: Option<T>, second: Option<T>) {
    if first.None? || second.None? then first.None? && second.None? else first.value == second.value
  }

  predicate IsStale(computedAt: int, maxAge: Option<nat>, asOf: int) {
    maxAge.Some? && asOf - computedAt > maxAge.value
  }

  /** A valid observation is reported stale once it is too old or any of its versions has moved on. */
  function ReportedQuality(o: Observation, def: Definition, now: Present, asOf: int): Quality {
    if o.quality == Valid && (IsStale(o.computedAt, def.maxAge, asOf) || o.version != now.version ||
                              !SameOptional(o.baseline, now.baseline) || o.generation != now.generation)
    then Stale else o.quality
  }

  lemma SameOptionalIsEquality<T>(first: Option<T>, second: Option<T>)
    ensures SameOptional(first, second) <==> first == second
  {
  }

  /** An observation is reported valid exactly if it was recorded valid, is not too old, and agrees with all three present versions. */
  lemma ReportedValidExactly(o: Observation, def: Definition, now: Present, asOf: int)
    ensures ReportedQuality(o, def, now, asOf) == Valid <==>
            && o.quality == Valid && (def.maxAge.Some? ==> asOf <= o.computedAt + def.maxAge.value)
            && Present(o.version, o.baseline, o.generation) == now
  {
    SameOptionalIsEquality(o.baseline, now.baseline);
  }

  function Latest(rows: seq<Observation>, def: Definition, phase: Option<Key>, now: Present, asOf: int): Option<Observation> {
    var i := LatestIndex(rows, def.metric, phase);
    if i.None? then None else Some(rows[i.value].(quality := ReportedQuality(rows[i.value], def, now, asOf)))
  }

  predicate Blocks(rows: seq<Observation>, def: Definition, phase: Option<Key>, now: Present, asOf: int) {
    def.required && (Latest(rows, def, phase, now, asOf).None? || Latest(rows, def, phase, now, asOf).value.quality != Valid)
  }

  /** The required metrics that are missing, or not valid now. */
  method GateBlockers(rows: seq<Observation>, defs: seq<Definition>, phase: Option<Key>, now: Present, asOf: int)
      returns (blockers: seq<string>)
    ensures forall key :: key in blockers <==> exists i | 0 <= i < |defs| :: defs[i].metric == key && Blocks(rows, defs[i], phase, now, asOf)
    ensures blockers == [] <==>
            forall i | 0 <= i < |defs| && defs[i].required ::
              var o := Latest(rows, defs[i], phase, now, asOf); o.Some? && o.value.quality == Valid
    ensures |blockers| <= |defs|
  {
    var required: seq<Definition> := [];
    for i := 0 to |defs|
      invariant |required| <= i
      invariant forall j | 0 <= j < |required| :: required[j].required && required[j] in defs[..i]
      invariant forall j | 0 <= j < i && defs[j].required :: defs[j] in required
    {
      assert defs[..i + 1] == defs[..i] + [defs[i]];
      if defs[i].required { required := required + [defs[i]]; }
    }
    blockers := [];
    for i := 0 to |required|
      invariant |blockers| <= i
      invariant forall key :: key in blockers <==> exists j | 0 <= j < i :: required[j].metric == key && Blocks(rows, required[j], phase, now, asOf)
      invariant blockers == [] <==> forall j | 0 <= j < i :: !Blocks(rows, required[j], phase, now, asOf)
    {
      var o := Latest(rows, required[i], phase, now, asOf);
      if o.None? || o.value.quality != Valid { blockers := blockers + [required[i].metric]; }
    }
  }

  /** An observation is recorded exactly if its metric is defined, it has a value if its quality is valid or stale and else a reason
      in place of one, and its unit is that of the metric; for money the currency's three letters, filled in if none is stated. */
  lemma RecordExactly(defs: seq<Definition>, o: Observation, currency: Option<string>)
    ensures Record(defs, o, currency).Recorded? <==>
            && Find(defs, o.metric).Some?
            && (if o.quality == Valid || o.quality == Stale then o.value.Some? else o.value.None? && o.detail != "")
            && var unit := Find(defs, o.metric).value.unit;
               if unit != "currency" then o.unit == "" || o.unit == unit
               else if o.unit != "" then |o.unit| == 12 && o.unit[..9] == "currency:"
               else currency.Some? ==> |currency.value| == 3
  {
    assert forall s: string :: ("currency:" + s)[..9] == "currency:" && |"currency:" + s| == 9 + |s|;
  }
}
