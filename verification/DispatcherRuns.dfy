/**
 Many workers on one outbox, under any interleaving: claiming, running the handler, acknowledging together with the
 handler's effect, reporting a failure, expiring and crashing are separate steps. The theorems say when an effect
 is committed, how often, and that no delivery is lost.
 */
module DispatcherRuns {
  import opened Wrappers
  import opened Dispatcher

  /** A delivery in the hands of the worker that claimed it under the token. */
  datatype Task = Task(token: Token, delivery: nat)

  /** Before and after the handler has run in the worker's open transaction. */
  datatype Stage = Claimed | Handled

  /** `commits`, `claims` and `reopened` record the deliveries whose effect was committed, that were leased,
      and that were delivered when a failure was reported for them, in order. */
  datatype System = System(queue: Queue, tasks: map<Task, Stage>, issued: set<Token>,
                           commits: seq<nat>, claims: seq<set<nat>>, reopened: seq<nat>)

  datatype Step =
    | Emit(key: string)
    | Subscribe(subscription: Subscription)
    | SetActive(index: nat, active: bool)
    | Dispatch(events: seq<nat>)
    | ClaimSome(token: Token, deliveries: set<nat>, now: int, lease: nat)
    | Handle(task: Task)
    | Commit(task: Task)
    | Report(task: Task)
    | Abandon(task: Task)

  const Initial: System := System(Queue([], [], []), map[], {}, [], [], [])

  /** What may happen next. Locked rows are skipped, so any undispatched events and any claimable deliveries may be taken. */
  predicate Enabled(s: System, step: Step) {
    match step
    case Emit(_) => true
    case Subscribe(_) => true
    case SetActive(i, _) => i < |s.queue.subscriptions|
    case Dispatch(es) => Undispatched(s.queue, es)
    case ClaimSome(token, ids, now, _) =>
      token !in s.issued && forall d | d in ids :: d < |s.queue.deliveries| && Claimable(s.queue.deliveries[d], now)
    case Handle(task) => task in s.tasks && s.tasks[task] == Claimed
    case Commit(task) => task in s.tasks && s.tasks[task] == Handled
    case Report(task) => task in s.tasks && s.tasks[task] == Claimed
    case Abandon(task) => task in s.tasks
  }

  /** A report that reaches a delivery already delivered. */
  predicate Reopens(s: System, step: Step) {
    step.Report? && step.task.delivery < |s.queue.deliveries| && s.queue.deliveries[step.task.delivery].status == Delivered
  }

  /** A commit whose token is still the stored one; any other commit rolls the handler's effect back. */
  predicate Lands(s: System, step: Step) {
    step.Commit? && Holds(s.queue, step.task.delivery, step.task.token)
  }

  function NextQueue(s: System, step: Step): Queue
    requires Enabled(s, step)
  {
    match step
    case Emit(key) => s.queue.(events := s.queue.events + [Event(key, None)])
    case Subscribe(subscription) => s.queue.(subscriptions := s.queue.subscriptions + [subscription])
    case SetActive(i, active) => s.queue.(subscriptions := s.queue.subscriptions[i := s.queue.subscriptions[i].(active := active)])
    case Dispatch(es) => DispatchAll(s.queue, es)
    case ClaimSome(token, ids, now, lease) => Claim(s.queue, ids, token, now + lease)
    case Handle(_) => s.queue
    case Commit(task) => Acknowledge(s.queue, task.delivery, task.token)
    case Report(task) => MarkFailed(s.queue, task.delivery)
    case Abandon(_) => s.queue
  }

  function NextTasks(s: System, step: Step): map<Task, Stage> {
    match step
    case ClaimSome(token, ids, _, _) => s.tasks + map d | d in ids :: Task(token, d) := Claimed
    case Handle(task) => s.tasks[task := Handled]
    case Commit(task) => s.tasks - {task}
    case Report(task) => s.tasks - {task}
    case Abandon(task) => s.tasks - {task}
    case _ => s.tasks
  }

  function Next(s: System, step: Step): System
    requires Enabled(s, step)
  {
    System(NextQueue(s, step),
           NextTasks(s, step),
           if step.ClaimSome? then s.issued + {step.token} else s.issued,
           if Lands(s, step) then s.commits + [step.task.delivery] else s.commits,
           if step.ClaimSome? then s.claims + [step.deliveries] else s.claims,
           if Reopens(s, step) then s.reopened + [step.task.delivery] else s.reopened)
  }

  predicate Possible(s: System, steps: seq<Step>)
    decreases |steps|
  {
    steps == [] || (Enabled(s, steps[0]) && Possible(Next(s, steps[0]), steps[1..]))
  }

  function Run(s: System, steps: seq<Step>): System
    requires Possible(s, steps)
    decreases |steps|
  {
    if steps == [] then s else Run(Next(s, steps[0]), steps[1..])
  }

  // ---------------------------------------------------------------- effect and acknowledgement

  predicate IsDelivered(q: Queue, d: nat) {
    d < |q.deliveries| && q.deliveries[d].status == Delivered
  }

  function Count(log: seq<nat>, d: nat): nat {
    if log == [] then 0 else Count(log[..|log| - 1], d) + if log[|log| - 1] == d then 1 else 0
  }

  lemma CountAppend(log: seq<nat>, x: nat, d: nat)
    ensures Count(log + [x], d) == Count(log, d) + if x == d then 1 else 0
  {
    assert (log + [x])[..|log|] == log;
  }

  function ClaimCount(log: seq<set<nat>>, d: nat): nat {
    if log == [] then 0 else ClaimCount(log[..|log| - 1], d) + if d in log[|log| - 1] then 1 else 0
  }

  lemma ClaimCountAppend(log: seq<set<nat>>, x: set<nat>, d: nat)
    ensures ClaimCount(log + [x], d) == ClaimCount(log, d) + if d in x then 1 else 0
  {
    assert (log + [x])[..|log|] == log;
  }

  // ---------------------------------------------------------------- the invariant

  predicate RowSound(d: Delivery, issued: set<Token>) {
    && (d.token.Some? <==> d.status == Leased)
    && (d.token.Some? ==> d.token.value in issued)
    && d.maxAttempts >= 1
    && (d.status == Pending ==> d.attempts < d.maxAttempts)
    && (d.status == DeadLetter ==> d.attempts >= d.maxAttempts)
  }

  ghost predicate RowsSound(s: System) {
    forall d | 0 <= d < |s.queue.deliveries| :: RowSound(s.queue.deliveries[d], s.issued)
  }

  ghost predicate TasksSound(s: System) {
    forall t | t in s.tasks :: t.token in s.issued && t.delivery < |s.queue.deliveries|
  }

  /** Every commit is still visible as a delivered row, or was undone by a report that came too late. */
  ghost predicate CommitsAccounted(s: System) {
    forall d: nat :: Count(s.commits, d) == (if IsDelivered(s.queue, d) then 1 else 0) + Count(s.reopened, d)
  }

  ghost predicate AttemptsCounted(s: System) {
    forall d: nat :: ClaimCount(s.claims, d) == if d < |s.queue.deliveries| then s.queue.deliveries[d].attempts else 0
  }

  predicate DeliversTo(q: Queue, d: int, e: int, subscription: int) {
    0 <= d < |q.deliveries| && q.deliveries[d].event == e && q.deliveries[d].subscription == subscription
  }

  predicate HasDelivery(q: Queue, e: int, subscription: int) {
    exists d | 0 <= d < |q.deliveries| :: DeliversTo(q, d, e, subscription)
  }

  /** The event was dispatched while the subscription was listening. */
  predicate Invited(q: Queue, e: int, subscription: int) {
    0 <= e < |q.events| && q.events[e].audience.Some? && subscription in q.events[e].audience.value
  }

  /** No delivery before the dispatch, and after it exactly one for each subscription that was active then. */
  ghost predicate FannedOut(q: Queue) {
    && (forall e, i :: HasDelivery(q, e, i) <==> Invited(q, e, i))
    && (forall c, d, e, i :: DeliversTo(q, c, e, i) && DeliversTo(q, d, e, i) ==> c == d)
  }

  ghost predicate Invariant(s: System) {
    RowsSound(s) && TasksSound(s) && CommitsAccounted(s) && AttemptsCounted(s) && FannedOut(s.queue)
  }

  // ---------------------------------------------------------------- dispatching keeps it

  /** The rows of a fan-out are fresh deliveries of the event, one for each listening subscription, in order. */
  lemma {:induction false} FanoutExact(subscriptions: seq<Subscription>, e: nat, key: string)
    ensures var rows := Fanout(subscriptions, e, key);
            && (forall d | 0 <= d < |rows| :: rows[d].subscription in Audience(subscriptions, key) && rows[d] == NewDelivery(e, rows[d].subscription))
            && (forall i | i in Audience(subscriptions, key) :: NewDelivery(e, i) in rows)
            && (forall c, d | 0 <= c < d < |rows| :: rows[c].subscription < rows[d].subscription)
  {
    if subscriptions != [] {
      var last := |subscriptions| - 1;
      var before, rows := Fanout(subscriptions[..last], e, key), Fanout(subscriptions, e, key);
      FanoutExact(subscriptions[..last], e, key);
      AudienceGrows(subscriptions, key);
      forall i | i in Audience(subscriptions, key) ensures NewDelivery(e, i) in rows {
        if i < last { assert NewDelivery(e, i) in before; } else { assert rows[|before|] == NewDelivery(e, last); }
      }
    }
  }

  lemma AudienceGrows(subscriptions: seq<Subscription>, key: string)
    requires subscriptions != []
    ensures var last := |subscriptions| - 1;
            Audience(subscriptions, key)
            == Audience(subscriptions[..last], key) + if Listens(subscriptions[last], key) then {last} else {}
  {
    var last := |subscriptions| - 1;
    assert forall i | 0 <= i < last :: subscriptions[..last][i] == subscriptions[i];
  }

  lemma DispatchEventDelivers(q: Queue, e: nat, f: int, i: int)
    requires e < |q.events|
    ensures HasDelivery(DispatchEvent(q, e), f, i) <==>
            HasDelivery(q, f, i) || (f == e && i in Audience(q.subscriptions, q.events[e].key))
  {
    var after := DispatchEvent(q, e);
    var n := |q.deliveries|;
    var rows := Fanout(q.subscriptions, e, q.events[e].key);
    FanoutExact(q.subscriptions, e, q.events[e].key);
    if d :| 0 <= d < n && DeliversTo(q, d, f, i) { assert DeliversTo(after, d, f, i); }
    if f == e && i in Audience(q.subscriptions, q.events[e].key) {
      var d :| 0 <= d < |rows| && rows[d] == NewDelivery(e, i);
      assert DeliversTo(after, n + d, f, i);
    }
    if d :| 0 <= d < |after.deliveries| && DeliversTo(after, d, f, i) {
      if d < n { assert DeliversTo(q, d, f, i); } else { assert after.deliveries[d] == rows[d - n]; }
    }
  }

  lemma FreshRow(q: Queue, e: nat, d: nat)
    requires e < |q.events| && |q.deliveries| <= d < |DispatchEvent(q, e).deliveries|
    ensures var row := DispatchEvent(q, e).deliveries[d];
            && row == Fanout(q.subscriptions, e, q.events[e].key)[d - |q.deliveries|]
            && row == NewDelivery(e, row.subscription)
  {
    FanoutExact(q.subscriptions, e, q.events[e].key);
    var rows := Fanout(q.subscriptions, e, q.events[e].key);
    assert rows[d - |q.deliveries|] == NewDelivery(e, rows[d - |q.deliveries|].subscription);
  }

  lemma DispatchEventUnique(q: Queue, e: nat)
    requires FannedOut(q) && e < |q.events| && q.events[e].audience.None?
    ensures var after := DispatchEvent(q, e);
            forall c, d, f, i :: DeliversTo(after, c, f, i) && DeliversTo(after, d, f, i) ==> c == d
  {
    var after := DispatchEvent(q, e);
    var n := |q.deliveries|;
    var rows := Fanout(q.subscriptions, e, q.events[e].key);
    FanoutExact(q.subscriptions, e, q.events[e].key);
    forall c, d, f, i | DeliversTo(after, c, f, i) && DeliversTo(after, d, f, i) ensures c == d {
      assert c < n ==> DeliversTo(q, c, f, i) && HasDelivery(q, f, i);
      assert d < n ==> DeliversTo(q, d, f, i) && HasDelivery(q, f, i);
      if c >= n { FreshRow(q, e, c); }
      if d >= n { FreshRow(q, e, d); }
      assert !Invited(q, e, i) && !HasDelivery(q, e, i);
    }
  }

  lemma DispatchEventFansOut(q: Queue, e: nat)
    requires FannedOut(q) && e < |q.events| && q.events[e].audience.None?
    ensures FannedOut(DispatchEvent(q, e))
  {
    var after := DispatchEvent(q, e);
    forall f, i ensures HasDelivery(after, f, i) <==> Invited(after, f, i) {
      DispatchEventDelivers(q, e, f, i);
      assert HasDelivery(q, f, i) <==> Invited(q, f, i);
    }
    DispatchEventUnique(q, e);
  }

  /** Dispatching appends fresh deliveries and changes no other row. */
  lemma {:induction false} DispatchAllKeeps(q: Queue, es: seq<nat>)
    requires FannedOut(q) && Undispatched(q, es)
    ensures var after := DispatchAll(q, es);
            && FannedOut(after)
            && (forall e | 0 <= e < |q.events| && e !in es :: after.events[e] == q.events[e])
            && q.deliveries <= after.deliveries
            && (forall d | |q.deliveries| <= d < |after.deliveries| ::
                  after.deliveries[d] == NewDelivery(after.deliveries[d].event, after.deliveries[d].subscription))
  {
    if es != [] {
      var rest, e := es[..|es| - 1], es[|es| - 1];
      assert forall i | 0 <= i < |rest| :: rest[i] == es[i];
      DispatchAllKeeps(q, rest);
      var before := DispatchAll(q, rest);
      assert es == rest + [e] && e !in rest;
      DispatchEventFansOut(before, e);
      var after := DispatchAll(q, es);
      forall d | |q.deliveries| <= d < |after.deliveries|
        ensures after.deliveries[d] == NewDelivery(after.deliveries[d].event, after.deliveries[d].subscription)
      {
        if d >= |before.deliveries| { FreshRow(before, e, d); } else { assert after.deliveries[d] == before.deliveries[d]; }
      }
    }
  }

  lemma SameFanout(q: Queue, after: Queue)
    requires FannedOut(q) && |after.deliveries| == |q.deliveries|
    requires forall d | 0 <= d < |q.deliveries| ::
               after.deliveries[d].event == q.deliveries[d].event && after.deliveries[d].subscription == q.deliveries[d].subscription
    requires q.events <= after.events && forall e | |q.events| <= e < |after.events| :: after.events[e].audience.None?
    ensures FannedOut(after)
  {
    assert forall d, e, i :: DeliversTo(after, d, e, i) <==> DeliversTo(q, d, e, i);
    forall e, i ensures HasDelivery(after, e, i) <==> Invited(after, e, i) {
      if HasDelivery(q, e, i) {
        var d :| 0 <= d < |q.deliveries| && DeliversTo(q, d, e, i);
        assert DeliversTo(after, d, e, i);
      }
      if HasDelivery(after, e, i) {
        var d :| 0 <= d < |after.deliveries| && DeliversTo(after, d, e, i);
        assert DeliversTo(q, d, e, i);
      }
      assert Invited(after, e, i) <==> Invited(q, e, i);
    }
  }

  // ---------------------------------------------------------------- every step keeps it

  lemma FanoutKept(s: System, step: Step)
    requires Invariant(s) && Enabled(s, step)
    ensures FannedOut(NextQueue(s, step))
  {
    if step.Dispatch? { DispatchAllKeeps(s.queue, step.events); } else { SameFanout(s.queue, NextQueue(s, step)); }
  }

  lemma RowsKept(s: System, step: Step)
    requires Invariant(s) && Enabled(s, step)
    ensures RowsSound(Next(s, step)) && TasksSound(Next(s, step))
  {
    if step.Dispatch? { DispatchAllKeeps(s.queue, step.events); }
  }

  /** One delivery's account over one step. */
  lemma CommitKept(s: System, step: Step, d: nat)
    requires RowsSound(s) && Enabled(s, step) && !step.Dispatch?
    ensures var after := Next(s, step);
            Count(after.commits, d) - Count(s.commits, d)
            == (if IsDelivered(after.queue, d) then 1 else 0) - (if IsDelivered(s.queue, d) then 1 else 0)
               + Count(after.reopened, d) - Count(s.reopened, d)
  {
    if step.Commit? { CountAppend(s.commits, step.task.delivery, d); }
    if step.Report? { CountAppend(s.reopened, step.task.delivery, d); }
  }

  lemma CommitsKept(s: System, step: Step)
    requires Invariant(s) && Enabled(s, step)
    ensures CommitsAccounted(Next(s, step))
  {
    if step.Dispatch? {
      DispatchAllKeeps(s.queue, step.events);
    } else {
      forall d: nat ensures Count(Next(s, step).commits, d)
                            == (if IsDelivered(Next(s, step).queue, d) then 1 else 0) + Count(Next(s, step).reopened, d) {
        CommitKept(s, step, d);
      }
    }
  }

  lemma AttemptsKept(s: System, step: Step)
    requires Invariant(s) && Enabled(s, step)
    ensures AttemptsCounted(Next(s, step))
  {
    var after := Next(s, step);
    if step.Dispatch? { DispatchAllKeeps(s.queue, step.events); }
    forall d: nat
      ensures ClaimCount(after.claims, d) == if d < |after.queue.deliveries| then after.queue.deliveries[d].attempts else 0
    {
      if step.ClaimSome? { ClaimCountAppend(s.claims, step.deliveries, d); }
    }
  }

  lemma NextKeeps(s: System, step: Step)
    requires Invariant(s) && Enabled(s, step)
    ensures Invariant(Next(s, step))
  {
    RowsKept(s, step);
    CommitsKept(s, step);
    AttemptsKept(s, step);
    FanoutKept(s, step);
  }

  lemma InitialIsSound()
    ensures Invariant(Initial)
  {
  }

  lemma {:induction false} RunKeeps(s: System, steps: seq<Step>)
    requires Invariant(s) && Possible(s, steps)
    ensures Invariant(Run(s, steps))
    decreases |steps|
  {
    if steps != [] {
      NextKeeps(s, steps[0]);
      RunKeeps(Next(s, steps[0]), steps[1..]);
    }
  }

  /** What `Engine.DispatchPending` does is one of these steps. */
  lemma EngineDispatches(s: System, locked: set<nat>)
    ensures var es := Oldest(s.queue.events, |s.queue.events|, DispatchLimit, locked);
            Enabled(s, Dispatch(es)) && Next(s, Dispatch(es)).queue == DispatchAll(s.queue, es)
  {
    OldestExact(s.queue.events, |s.queue.events|, DispatchLimit, locked);
  }

  /** So is what `Engine.ClaimBatch` does under a fresh token, whatever rows are locked. */
  lemma EngineClaims(s: System, token: Token, now: int, lease: nat, batch: nat, locked: set<nat>)
    requires token !in s.issued
    ensures var ids := set d | d in Selected(s.queue.deliveries, |s.queue.deliveries|, now, batch, locked);
            && Enabled(s, ClaimSome(token, ids, now, lease))
            && Next(s, ClaimSome(token, ids, now, lease)).queue == Claim(s.queue, ids, token, now + lease)
  {
    var rows := s.queue.deliveries;
    forall d | d in Selected(rows, |rows|, now, batch, locked) ensures d < |rows| && Claimable(rows[d], now) {
      SelectedIsClaimable(rows, now, batch, locked, d);
    }
  }

  lemma SelectedIsClaimable(rows: seq<Delivery>, now: int, batch: nat, locked: set<nat>, d: nat)
    requires d in Selected(rows, |rows|, now, batch, locked)
    ensures d < |rows| && Claimable(rows[d], now)
  {
    SelectedExact(rows, |rows|, now, batch, locked);
    var ids := Selected(rows, |rows|, now, batch, locked);
    var i :| 0 <= i < |ids| && ids[i] == d;
  }

  // ---------------------------------------------------------------- how long a lease is held

  /** The holder commits, or anybody who has or had the delivery reports a failure for it: the report is not fenced. */
  predicate Releases(step: Step, d: nat, token: Token) {
    step == Commit(Task(token, d)) || (step.Report? && step.task.delivery == d)
  }

  predicate Takes(step: Step, d: nat) {
    step.ClaimSome? && d in step.deliveries
  }

  /** A hold ends with a release or a claim of the delivery, and with nothing else; any other step leaves its row as it is.
      A claim of it is possible only after the lease has run out. */
  lemma HoldEndsExactly(s: System, step: Step, d: nat, token: Token)
    requires Invariant(s) && Enabled(s, step) && Holds(s.queue, d, token)
    ensures Holds(Next(s, step).queue, d, token) <==> !Releases(step, d, token) && !Takes(step, d)
    ensures Holds(Next(s, step).queue, d, token) ==> Next(s, step).queue.deliveries[d] == s.queue.deliveries[d]
    ensures Takes(step, d) ==> step.now > s.queue.deliveries[d].leaseUntil
  {
    assert RowSound(s.queue.deliveries[d], s.issued);
    if step.Dispatch? { DispatchAllKeeps(s.queue, step.events); }
  }

  lemma NeverIssuedTwice(s: System, step: Step, d: nat, token: Token)
    requires Invariant(s) && Enabled(s, step) && token in s.issued && !Holds(s.queue, d, token)
    ensures token in Next(s, step).issued && !Holds(Next(s, step).queue, d, token)
  {
    if step.Dispatch? { DispatchAllKeeps(s.queue, step.events); }
  }

  /** A token that has lost its delivery never holds it again. */
  lemma {:induction false} LostForGood(s: System, steps: seq<Step>, d: nat, token: Token)
    requires Invariant(s) && Possible(s, steps) && token in s.issued && !Holds(s.queue, d, token)
    ensures !Holds(Run(s, steps).queue, d, token)
    decreases |steps|
  {
    if steps != [] {
      NextKeeps(s, steps[0]);
      NeverIssuedTwice(s, steps[0], d, token);
      LostForGood(Next(s, steps[0]), steps[1..], d, token);
    }
  }

  /** No step of the run releases the delivery from the token. */
  predicate NoneReleases(steps: seq<Step>, d: nat, token: Token) {
    forall i | 0 <= i < |steps| :: !Releases(steps[i], d, token)
  }

  predicate NoneTakes(steps: seq<Step>, d: nat) {
    forall i | 0 <= i < |steps| :: !Takes(steps[i], d)
  }

  /** Every claim of the run is made by this time. */
  predicate ClaimsBy(steps: seq<Step>, until: int) {
    forall i | 0 <= i < |steps| :: steps[i].ClaimSome? ==> steps[i].now <= until
  }

  lemma FirstStep(steps: seq<Step>, d: nat, token: Token)
    requires steps != []
    ensures NoneReleases(steps, d, token) <==> !Releases(steps[0], d, token) && NoneReleases(steps[1..], d, token)
    ensures NoneTakes(steps, d) <==> !Takes(steps[0], d) && NoneTakes(steps[1..], d)
  {
    assert forall i | 1 <= i < |steps| :: steps[i] == steps[1..][i - 1];
  }

  /** The holder of a delivery still holds it after a run exactly if no step of the run releases or takes it. */
  lemma {:induction false} HeldExactly(s: System, steps: seq<Step>, d: nat, token: Token)
    requires Invariant(s) && Possible(s, steps) && Holds(s.queue, d, token)
    ensures Holds(Run(s, steps).queue, d, token) <==> NoneReleases(steps, d, token) && NoneTakes(steps, d)
    ensures Holds(Run(s, steps).queue, d, token) ==> Run(s, steps).queue.deliveries[d] == s.queue.deliveries[d]
    decreases |steps|
  {
    if steps != [] {
      NextKeeps(s, steps[0]);
      HoldEndsExactly(s, steps[0], d, token);
      FirstStep(steps, d, token);
      assert token in s.issued by { assert RowSound(s.queue.deliveries[d], s.issued); }
      if Holds(Next(s, steps[0]).queue, d, token) {
        HeldExactly(Next(s, steps[0]), steps[1..], d, token);
      } else {
        LostForGood(Next(s, steps[0]), steps[1..], d, token);
      }
    }
  }

  /** While it is held, a lease that has not run out is not taken. */
  lemma {:induction false} NotTakenInTime(s: System, steps: seq<Step>, d: nat, token: Token)
    requires Invariant(s) && Possible(s, steps) && Holds(s.queue, d, token)
    requires NoneReleases(steps, d, token) && ClaimsBy(steps, s.queue.deliveries[d].leaseUntil)
    ensures NoneTakes(steps, d)
    decreases |steps|
  {
    if steps != [] {
      NextKeeps(s, steps[0]);
      HoldEndsExactly(s, steps[0], d, token);
      FirstStep(steps, d, token);
      NotTakenInTime(Next(s, steps[0]), steps[1..], d, token);
    }
  }

  /** What a lease protects from, over every run whose claims are made before it ends: its holder keeps the delivery, which
      nobody can claim within the lease, exactly if it has not committed and nobody has reported a failure for the delivery. */
  lemma LeaseProtects(s: System, claim: Step, steps: seq<Step>, d: nat, later: int)
    requires Invariant(s) && Enabled(s, claim) && Takes(claim, d) && Possible(Next(s, claim), steps)
    requires ClaimsBy(steps, claim.now + claim.lease) && later <= claim.now + claim.lease
    ensures var q := Run(Next(s, claim), steps).queue;
            && (Holds(q, d, claim.token) <==> NoneReleases(steps, d, claim.token))
            && (Holds(q, d, claim.token) ==> !Claimable(q.deliveries[d], later))
    ensures Task(claim.token, d) in Next(s, claim).tasks
  {
    var leased := Next(s, claim);
    NextKeeps(s, claim);
    HeldExactly(leased, steps, d, claim.token);
    if NoneReleases(steps, d, claim.token) { NotTakenInTime(leased, steps, d, claim.token); }
  }

  // ---------------------------------------------------------------- the theorems

  /** An effect is committed exactly when the same step moves its delivery to delivered, and only the holder
      of the stored token can make that step. */
  lemma CommitExactly(s: System, step: Step, d: nat)
    requires Invariant(s) && Enabled(s, step)
    ensures var after := Next(s, step);
            && (after.commits != s.commits <==> step.Commit? && Holds(s.queue, step.task.delivery, step.task.token))
            && (after.commits != s.commits ==> after.commits == s.commits + [step.task.delivery])
            && (after.commits != s.commits && step.task.delivery == d <==> !IsDelivered(s.queue, d) && IsDelivered(after.queue, d))
  {
    if step.Dispatch? { DispatchAllKeeps(s.queue, step.events); }
    if Lands(s, step) { assert |s.commits + [step.task.delivery]| == |s.commits| + 1; }
  }

  /** Exactly how often an effect is committed in any run: once for the delivered row, and once more
      for each report that reached the delivery after it was delivered. */
  lemma CommitsOf(steps: seq<Step>, d: nat)
    requires Possible(Initial, steps)
    ensures var s := Run(Initial, steps);
            Count(s.commits, d) == (if IsDelivered(s.queue, d) then 1 else 0) + Count(s.reopened, d)
  {
    InitialIsSound();
    RunKeeps(Initial, steps);
  }

  predicate HolderReports(s: System, step: Step) {
    step.Report? ==> Holds(s.queue, step.task.delivery, step.task.token)
  }

  /** Every failure in the run is reported by the current holder of the token. */
  predicate OnlyHoldersReport(s: System, steps: seq<Step>)
    requires Possible(s, steps)
    decreases |steps|
  {
    steps == [] || (HolderReports(s, steps[0]) && OnlyHoldersReport(Next(s, steps[0]), steps[1..]))
  }

  lemma {:induction false} HoldersNeverReopen(s: System, steps: seq<Step>)
    requires Invariant(s) && Possible(s, steps) && OnlyHoldersReport(s, steps)
    ensures Run(s, steps).reopened == s.reopened
    decreases |steps|
  {
    if steps != [] {
      NextKeeps(s, steps[0]);
      HoldersNeverReopen(Next(s, steps[0]), steps[1..]);
    }
  }

  /** If only holders report failures, each effect is committed at most once, and exactly once if it was delivered. */
  lemma AtMostOnce(steps: seq<Step>, d: nat)
    requires Possible(Initial, steps) && OnlyHoldersReport(Initial, steps)
    ensures var s := Run(Initial, steps); Count(s.commits, d) == if IsDelivered(s.queue, d) then 1 else 0
  {
    InitialIsSound();
    HoldersNeverReopen(Initial, steps);
    CommitsOf(steps, d);
  }

  /** The holder's own commit or report. */
  predicate OwnRelease(step: Step, d: nat, token: Token) {
    step == Commit(Task(token, d)) || step == Report(Task(token, d))
  }

  predicate NoOwnRelease(steps: seq<Step>, d: nat, token: Token) {
    forall i | 0 <= i < |steps| :: !OwnRelease(steps[i], d, token)
  }

  /** While one token holds a delivery, a report by a holder is its own. */
  lemma {:induction false} HoldersReleaseTheirOwn(s: System, steps: seq<Step>, d: nat, token: Token)
    requires Invariant(s) && Possible(s, steps) && OnlyHoldersReport(s, steps) && Holds(s.queue, d, token) && NoOwnRelease(steps, d, token)
    requires ClaimsBy(steps, s.queue.deliveries[d].leaseUntil)
    ensures NoneReleases(steps, d, token)
    decreases |steps|
  {
    if steps != [] {
      NextKeeps(s, steps[0]);
      HoldEndsExactly(s, steps[0], d, token);
      FirstStep(steps, d, token);
      assert !OwnRelease(steps[0], d, token);
      HoldersReleaseTheirOwn(Next(s, steps[0]), steps[1..], d, token);
    }
  }

  /** If only holders report failures, a lease protects until it ends: within it only its own worker gives the delivery up. */
  lemma FencedLeaseProtects(s: System, claim: Step, steps: seq<Step>, d: nat)
    requires Invariant(s) && Enabled(s, claim) && Takes(claim, d) && Possible(Next(s, claim), steps)
    requires ClaimsBy(steps, claim.now + claim.lease) && OnlyHoldersReport(Next(s, claim), steps)
    ensures Holds(Run(Next(s, claim), steps).queue, d, claim.token) <==> NoOwnRelease(steps, d, claim.token)
  {
    LeaseProtects(s, claim, steps, d, claim.now);
    NextKeeps(s, claim);
    if NoOwnRelease(steps, d, claim.token) { HoldersReleaseTheirOwn(Next(s, claim), steps, d, claim.token); }
    if NoneReleases(steps, d, claim.token) {
      forall i | 0 <= i < |steps| ensures !OwnRelease(steps[i], d, claim.token) { assert !Releases(steps[i], d, claim.token); }
    }
  }

  /** A claim that takes no delivery away from a worker that still has it. */
  predicate Considerate(s: System, step: Step) {
    step.ClaimSome? ==> forall t | t in s.tasks :: t.delivery !in step.deliveries
  }

  predicate NoLeaseTaken(s: System, steps: seq<Step>)
    requires Possible(s, steps)
    decreases |steps|
  {
    steps == [] || (Considerate(s, steps[0]) && NoLeaseTaken(Next(s, steps[0]), steps[1..]))
  }

  ghost predicate TasksHold(s: System) {
    && (forall t | t in s.tasks :: Holds(s.queue, t.delivery, t.token))
    && (forall t, u | t in s.tasks && u in s.tasks && t.delivery == u.delivery :: t == u)
  }

  lemma TasksHoldKept(s: System, step: Step)
    requires Invariant(s) && TasksHold(s) && Enabled(s, step) && Considerate(s, step)
    ensures TasksHold(Next(s, step))
  {
    if step.Dispatch? { DispatchAllKeeps(s.queue, step.events); }
  }

  lemma {:induction false} ConsiderateRunsHold(s: System, steps: seq<Step>)
    requires Invariant(s) && TasksHold(s) && Possible(s, steps) && NoLeaseTaken(s, steps)
    ensures OnlyHoldersReport(s, steps)
    decreases |steps|
  {
    if steps != [] {
      NextKeeps(s, steps[0]);
      TasksHoldKept(s, steps[0]);
      ConsiderateRunsHold(Next(s, steps[0]), steps[1..]);
    }
  }

  /** It is enough that no lease expires while its worker still has the task: then only holders report, and commits are single. */
  lemma NoLeaseTakenAtMostOnce(steps: seq<Step>, d: nat)
    requires Possible(Initial, steps) && NoLeaseTaken(Initial, steps)
    ensures Count(Run(Initial, steps).commits, d) <= 1
  {
    InitialIsSound();
    ConsiderateRunsHold(Initial, steps);
    AtMostOnce(steps, d);
  }

  lemma Prepend(s: System, step: Step, rest: seq<Step>)
    requires Enabled(s, step) && Possible(Next(s, step), rest)
    ensures Possible(s, [step] + rest) && Run(s, [step] + rest) == Run(Next(s, step), rest)
  {
    assert ([step] + rest)[1..] == rest;
  }

  lemma Unfold(s: System, steps: seq<Step>)
    requires steps != [] && Enabled(s, steps[0]) && Possible(Next(s, steps[0]), steps[1..])
    ensures Possible(s, steps) && Run(s, steps) == Run(Next(s, steps[0]), steps[1..])
  {
  }

  /** The state with one event, one subscription and one delivery. */
  function Single(status: DeliveryStatus, token: Option<Token>, until: int, attempts: nat, tasks: map<Task, Stage>, issued: set<Token>,
                  commits: seq<nat>, claims: nat, reopened: seq<nat>): System {
    System(Queue([Event("e", Some({0}))], [Subscription("e", true)], [Delivery(0, 0, status, token, until, attempts, MaxAttempts)]),
           tasks, issued, commits, seq(claims, i => {0}), reopened)
  }

  lemma DispatchesOne(q: Queue)
    requires q == Queue([Event("e", None)], [Subscription("e", true)], [])
    ensures DispatchAll(q, [0]) == Queue([Event("e", Some({0}))], [Subscription("e", true)], [NewDelivery(0, 0)])
  {
    assert Fanout([Subscription("e", true)], 0, "e") == Fanout([], 0, "e") + [NewDelivery(0, 0)];
    assert DispatchAll(q, []) == q && DispatchAll(q, [0]) == DispatchEvent(q, 0);
    assert Audience(q.subscriptions, "e") == {0};
  }

  lemma SetUp() returns (steps: seq<Step>)
    ensures |steps| == 3 && Enabled(Initial, steps[0]) && Enabled(Next(Initial, steps[0]), steps[1])
    ensures var s := Next(Next(Initial, steps[0]), steps[1]);
            Enabled(s, steps[2]) && Next(s, steps[2]) == Single(Pending, None, 0, 0, map[], {}, [], 0, [])
  {
    steps := [Subscribe(Subscription("e", true)), Emit("e"), Dispatch([0])];
    var s := Next(Next(Initial, steps[0]), steps[1]);
    assert s.queue == Queue([Event("e", None)], [Subscription("e", true)], []);
    DispatchesOne(s.queue);
  }

  lemma ClaimSingle(s: System, token: Token, now: int, lease: nat)
    requires |s.queue.deliveries| == 1 && Enabled(s, ClaimSome(token, {0}, now, lease))
    ensures Next(s, ClaimSome(token, {0}, now, lease))
            == s.(queue := s.queue.(deliveries := [Lease(s.queue.deliveries[0], token, now + lease)]),
                  tasks := s.tasks[Task(token, 0) := Claimed], issued := s.issued + {token}, claims := s.claims + [{0}])
  {
    var after := Next(s, ClaimSome(token, {0}, now, lease));
    assert after.queue.deliveries == [Lease(s.queue.deliveries[0], token, now + lease)];
    assert after.tasks == s.tasks[Task(token, 0) := Claimed];
  }

  lemma ClaimsAppend(n: nat)
    ensures seq(n, i => {0}) + [{0}] == seq(n + 1, i => {0})
  {
  }

  /** The first worker's lease expires and the second takes the delivery over. */
  lemma TakenOver(steps: seq<Step>)
    requires steps == [ClaimSome(1, {0}, 0, 30), ClaimSome(2, {0}, 31, 30)]
    ensures Possible(Single(Pending, None, 0, 0, map[], {}, [], 0, []), steps)
    ensures Run(Single(Pending, None, 0, 0, map[], {}, [], 0, []), steps)
            == Single(Leased, Some(2), 61, 2, map[Task(1, 0) := Claimed, Task(2, 0) := Claimed], {1, 2}, [], 2, [])
  {
    var s0 := Single(Pending, None, 0, 0, map[], {}, [], 0, []);
    var s1 := Single(Leased, Some(1), 30, 1, map[Task(1, 0) := Claimed], {1}, [], 1, []);
    ClaimSingle(s0, 1, 0, 30);
    ClaimsAppend(0);
    assert Next(s0, steps[0]) == s1;
    ClaimSingle(s1, 2, 31, 30);
    ClaimsAppend(1);
    Unfold(s1, steps[1..]);
    Unfold(s0, steps);
  }

  /** The second worker delivers, and the first then reports a failure. */
  lemma DeliveredThenReported(steps: seq<Step>)
    requires steps == [Handle(Task(2, 0)), Commit(Task(2, 0)), Report(Task(1, 0))]
    ensures var s := Single(Leased, Some(2), 61, 2, map[Task(1, 0) := Claimed, Task(2, 0) := Claimed], {1, 2}, [], 2, []);
            Possible(s, steps) && Run(s, steps) == Single(Pending, None, 61, 2, map[], {1, 2}, [0], 2, [0])
  {
    var one, two := Task(1, 0), Task(2, 0);
    var s2 := Single(Leased, Some(2), 61, 2, map[one := Claimed, two := Claimed], {1, 2}, [], 2, []);
    var s3 := Single(Leased, Some(2), 61, 2, map[one := Claimed, two := Handled], {1, 2}, [], 2, []);
    var s4 := Single(Delivered, None, 61, 2, map[one := Claimed], {1, 2}, [0], 2, []);
    assert Next(s2, steps[0]) == s3;
    assert Next(s3, steps[1]) == s4;
    Unfold(s4, steps[2..]);
    Unfold(s3, steps[1..]);
    Unfold(s2, steps);
  }

  lemma SecondDelivery(steps: seq<Step>)
    requires steps == [ClaimSome(3, {0}, 62, 30), Handle(Task(3, 0)), Commit(Task(3, 0))]
    ensures Possible(Single(Pending, None, 61, 2, map[], {1, 2}, [0], 2, [0]), steps)
    ensures Run(Single(Pending, None, 61, 2, map[], {1, 2}, [0], 2, [0]), steps).commits == [0, 0]
  {
    var three := Task(3, 0);
    var s0 := Single(Pending, None, 61, 2, map[], {1, 2}, [0], 2, [0]);
    var s1 := Single(Leased, Some(3), 92, 3, map[three := Claimed], {1, 2, 3}, [0], 3, [0]);
    var s2 := Single(Leased, Some(3), 92, 3, map[three := Handled], {1, 2, 3}, [0], 3, [0]);
    assert Next(s0, steps[0]) == s1;
    assert Next(s1, steps[1]) == s2;
    assert Next(s2, steps[2]).commits == [0, 0];
    Unfold(s2, steps[2..]);
    Unfold(s1, steps[1..]);
    Unfold(s0, steps);
  }

  lemma HeadFirst(first: seq<Step>, second: seq<Step>)
    requires first != []
    ensures first + second == [first[0]] + (first[1..] + second)
  {
  }

  lemma {:induction false} Join(s: System, first: seq<Step>, second: seq<Step>)
    requires Possible(s, first) && Possible(Run(s, first), second)
    ensures Possible(s, first + second) && Run(s, first + second) == Run(Run(s, first), second)
    decreases |first|, 0
  {
    if first == [] {
      assert first + second == second;
    } else {
      JoinStep(s, first[0], first[1..], second);
      HeadFirst(first, second);
    }
  }

  lemma {:induction false} JoinStep(s: System, step: Step, rest: seq<Step>, second: seq<Step>)
    requires Enabled(s, step) && Possible(Next(s, step), rest) && Possible(Run(Next(s, step), rest), second)
    ensures Possible(s, [step] + (rest + second)) && Run(s, [step] + (rest + second)) == Run(Run(Next(s, step), rest), second)
    decreases |rest|, 1
  {
    Join(Next(s, step), rest, second);
    Prepend(s, step, rest + second);
  }

  lemma OnceSetUp(steps: seq<Step>) returns (all: seq<Step>)
    requires Possible(Single(Pending, None, 0, 0, map[], {}, [], 0, []), steps)
    ensures Possible(Initial, all) && Run(Initial, all) == Run(Single(Pending, None, 0, 0, map[], {}, [], 0, []), steps)
  {
    var before := SetUp();
    var s1 := Next(Initial, before[0]);
    Prepend(Next(s1, before[1]), before[2], steps);
    Prepend(s1, before[1], [before[2]] + steps);
    Prepend(Initial, before[0], [before[1]] + ([before[2]] + steps));
    all := [before[0]] + ([before[1]] + ([before[2]] + steps));
  }

  lemma TwoDeliveries() returns (steps: seq<Step>)
    ensures Possible(Single(Pending, None, 0, 0, map[], {}, [], 0, []), steps)
    ensures Run(Single(Pending, None, 0, 0, map[], {}, [], 0, []), steps).commits == [0, 0]
  {
    var s0 := Single(Pending, None, 0, 0, map[], {}, [], 0, []);
    var first := [ClaimSome(1, {0}, 0, 30), ClaimSome(2, {0}, 31, 30)];
    var second := [Handle(Task(2, 0)), Commit(Task(2, 0)), Report(Task(1, 0))];
    var third := [ClaimSome(3, {0}, 62, 30), Handle(Task(3, 0)), Commit(Task(3, 0))];
    TakenOver(first);
    DeliveredThenReported(second);
    SecondDelivery(third);
    Join(s0, first, second);
    Join(s0, first + second, third);
    steps := first + second + third;
  }

  /** Without any hypothesis an effect can be committed twice. */
  lemma CommittedTwice() returns (steps: seq<Step>)
    ensures Possible(Initial, steps) && Count(Run(Initial, steps).commits, 0) == 2
  {
    var inner := TwoDeliveries();
    steps := OnceSetUp(inner);
    assert Run(Initial, steps).commits == [0] + [0];
    CountAppend([], 0, 0);
    CountAppend([0], 0, 0);
    assert [] + [0] == [0];
  }

  /** The first worker, whose lease has run out, reports a failure within the lease of the second; a third then claims. */
  lemma ReportedInTime(s: System)
    requires s == Single(Leased, Some(2), 61, 2, map[Task(1, 0) := Claimed, Task(2, 0) := Claimed], {1, 2}, [], 2, [])
    ensures Enabled(s, Report(Task(1, 0)))
    ensures var freed := Next(s, Report(Task(1, 0)));
            && Enabled(freed, ClaimSome(3, {0}, 31, 30))
            && var after := Next(freed, ClaimSome(3, {0}, 31, 30));
               Holds(after.queue, 0, 3) && Task(2, 0) in after.tasks
  {
  }

  /** A run after which a worker loses a delivery at time 31, although its lease runs until 61 and it still has the task. */
  lemma LeaseLostInTime() returns (before: seq<Step>)
    ensures Possible(Initial, before)
    ensures var s := Run(Initial, before);
            && Holds(s.queue, 0, 2) && s.queue.deliveries[0].leaseUntil == 61
            && Enabled(s, Report(Task(1, 0)))
            && var freed := Next(s, Report(Task(1, 0)));
               && Enabled(freed, ClaimSome(3, {0}, 31, 30))
               && var after := Next(freed, ClaimSome(3, {0}, 31, 30));
                  Task(2, 0) in after.tasks && !Holds(after.queue, 0, 2) && Holds(after.queue, 0, 3)
  {
    var first := [ClaimSome(1, {0}, 0, 30), ClaimSome(2, {0}, 31, 30)];
    TakenOver(first);
    before := OnceSetUp(first);
    ReportedInTime(Run(Initial, before));
  }

  /** A dead delivery stays dead in every later state, whoever still works on it. */
  lemma {:induction false} DeadStaysDead(s: System, steps: seq<Step>, d: nat)
    requires Invariant(s) && Possible(s, steps) && d < |s.queue.deliveries| && s.queue.deliveries[d].status == DeadLetter
    ensures var after := Run(s, steps);
            d < |after.queue.deliveries| && after.queue.deliveries[d] == s.queue.deliveries[d]
    decreases |steps|
  {
    if steps != [] {
      if steps[0].Dispatch? { DispatchAllKeeps(s.queue, steps[0].events); }
      NextKeeps(s, steps[0]);
      DeadStaysDead(Next(s, steps[0]), steps[1..], d);
    }
  }

  /** No delivery is lost or readdressed: in every later state it exists, for the same event and subscription. */
  lemma {:induction false} NoneLost(s: System, steps: seq<Step>, d: nat)
    requires Invariant(s) && Possible(s, steps) && d < |s.queue.deliveries|
    ensures var after := Run(s, steps);
            d < |after.queue.deliveries| && DeliversTo(after.queue, d, s.queue.deliveries[d].event, s.queue.deliveries[d].subscription)
    decreases |steps|
  {
    if steps != [] {
      if steps[0].Dispatch? { DispatchAllKeeps(s.queue, steps[0].events); }
      NextKeeps(s, steps[0]);
      NoneLost(Next(s, steps[0]), steps[1..], d);
    }
  }

  /** In every reachable state an event has no delivery before its dispatch, and afterwards exactly one
      for each subscription active at the dispatch and none for any other. */
  lemma OneDeliveryPerSubscription(steps: seq<Step>, e: nat, i: int)
    requires Possible(Initial, steps) && e < |Run(Initial, steps).queue.events|
    ensures var q := Run(Initial, steps).queue;
            && (q.events[e].audience.None? ==> !HasDelivery(q, e, i))
            && (q.events[e].audience.Some? ==> (i in q.events[e].audience.value <==> HasDelivery(q, e, i)))
            && (forall c, d :: DeliversTo(q, c, e, i) && DeliversTo(q, d, e, i) ==> c == d)
  {
    InitialIsSound();
    RunKeeps(Initial, steps);
    var q := Run(Initial, steps).queue;
    assert HasDelivery(q, e, i) <==> Invited(q, e, i);
  }

  /** The audience is fixed at the dispatch: the subscriptions active then, whatever becomes of them. */
  lemma AudienceAtDispatch(s: System, es: seq<nat>, e: nat, rest: seq<Step>)
    requires Invariant(s) && Enabled(s, Dispatch(es)) && e in es && Possible(Next(s, Dispatch(es)), rest)
    ensures var q := Run(Next(s, Dispatch(es)), rest).queue;
            e < |q.events| && q.events[e] == Event(s.queue.events[e].key, Some(Audience(s.queue.subscriptions, s.queue.events[e].key)))
  {
    DispatchAllAudience(s.queue, es, e);
    NextKeeps(s, Dispatch(es));
    AudienceStays(Next(s, Dispatch(es)), rest, e);
  }

  /** Who gets an event: in every state after its dispatch, exactly the subscriptions to its key that were active at the
      dispatch have a delivery of it. */
  lemma DeliveredToActive(s: System, es: seq<nat>, e: nat, rest: seq<Step>, i: int)
    requires Invariant(s) && Enabled(s, Dispatch(es)) && e in es && Possible(Next(s, Dispatch(es)), rest)
    ensures HasDelivery(Run(Next(s, Dispatch(es)), rest).queue, e, i) <==>
            && 0 <= i < |s.queue.subscriptions| && s.queue.subscriptions[i].active
            && s.queue.subscriptions[i].eventKey == s.queue.events[e].key
  {
    AudienceAtDispatch(s, es, e, rest);
    NextKeeps(s, Dispatch(es));
    RunKeeps(Next(s, Dispatch(es)), rest);
    assert HasDelivery(Run(Next(s, Dispatch(es)), rest).queue, e, i) <==> Invited(Run(Next(s, Dispatch(es)), rest).queue, e, i);
  }

  lemma {:induction false} DispatchAllAudience(q: Queue, es: seq<nat>, e: nat)
    requires FannedOut(q) && Undispatched(q, es) && e in es
    ensures DispatchAll(q, es).events[e] == Event(q.events[e].key, Some(Audience(q.subscriptions, q.events[e].key)))
  {
    var rest, last := es[..|es| - 1], es[|es| - 1];
    assert es == rest + [last] && forall i | 0 <= i < |rest| :: rest[i] == es[i];
    DispatchAllKeeps(q, rest);
    if e != last { DispatchAllAudience(q, rest, e); }
  }

  lemma {:induction false} AudienceStays(s: System, steps: seq<Step>, e: nat)
    requires Invariant(s) && Possible(s, steps) && e < |s.queue.events| && s.queue.events[e].audience.Some?
    ensures var q := Run(s, steps).queue; e < |q.events| && q.events[e] == s.queue.events[e]
    decreases |steps|
  {
    if steps != [] {
      if steps[0].Dispatch? { DispatchAllKeeps(s.queue, steps[0].events); }
      NextKeeps(s, steps[0]);
      AudienceStays(Next(s, steps[0]), steps[1..], e);
    }
  }

  predicate TakesPending(s: System, step: Step) {
    step.ClaimSome? ==> forall d | d in step.deliveries :: d < |s.queue.deliveries| && s.queue.deliveries[d].status == Pending
  }

  /** No claim of the run takes over an expired lease. */
  predicate NoExpiry(s: System, steps: seq<Step>)
    requires Possible(s, steps)
    decreases |steps|
  {
    steps == [] || (TakesPending(s, steps[0]) && NoExpiry(Next(s, steps[0]), steps[1..]))
  }

  ghost predicate WithinAttempts(s: System) {
    forall d | 0 <= d < |s.queue.deliveries| :: s.queue.deliveries[d].attempts <= s.queue.deliveries[d].maxAttempts == MaxAttempts
  }

  lemma WithinAttemptsKept(s: System, step: Step)
    requires Invariant(s) && WithinAttempts(s) && Enabled(s, step) && TakesPending(s, step)
    ensures WithinAttempts(Next(s, step))
  {
    if step.Dispatch? { DispatchAllKeeps(s.queue, step.events); }
  }

  lemma {:induction false} ClaimsBounded(s: System, steps: seq<Step>, d: nat)
    requires Invariant(s) && WithinAttempts(s) && Possible(s, steps) && NoExpiry(s, steps)
    ensures ClaimCount(Run(s, steps).claims, d) <= MaxAttempts
    decreases |steps|
  {
    if steps != [] {
      NextKeeps(s, steps[0]);
      WithinAttemptsKept(s, steps[0]);
      ClaimsBounded(Next(s, steps[0]), steps[1..], d);
    }
  }

  /** Without lease expiry a delivery is claimed at most as often as attempts are allowed. */
  lemma ClaimsAtMostMax(steps: seq<Step>, d: nat)
    requires Possible(Initial, steps) && NoExpiry(Initial, steps)
    ensures ClaimCount(Run(Initial, steps).claims, d) <= MaxAttempts == 5
  {
    InitialIsSound();
    ClaimsBounded(Initial, steps, d);
  }
}
