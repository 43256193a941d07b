/**
 The transactional outbox: events, subscriptions and deliveries, and the statements of the dispatcher on them.
 A delivery is leased under a token; only the acknowledgement compares that token, the failure mark does not.
 */
module Dispatcher {
  import opened Wrappers

  type Token = nat

  datatype DeliveryStatus = Pending | Leased | Delivered | DeadLetter

  datatype Delivery = Delivery(event: nat, subscription: nat, status: DeliveryStatus, token: Option<Token>, leaseUntil: int,
                               attempts: nat, maxAttempts: nat)

  datatype Subscription = Subscription(eventKey: string, active: bool)

  /** `audience` is None until the event is dispatched, and then the subscriptions that were active for it. */
  datatype Event = Event(key: string, audience: Option<set<nat>>)

  /** Events, subscriptions and deliveries are identified by their position, in order of creation. */
  datatype Queue = Queue(events: seq<Event>, subscriptions: seq<Subscription>, deliveries: seq<Delivery>)

  const MaxAttempts: nat := 5
  const DispatchLimit: nat := 100

  // ---------------------------------------------------------------- dispatching

  predicate Listens(s: Subscription, key: string) {
    s.active && s.eventKey == key
  }

  function Audience(subscriptions: seq<Subscription>, key: string): set<nat> {
    set i | 0 <= i < |subscriptions| && Listens(subscriptions[i], key)
  }

  function NewDelivery(event: nat, subscription: nat): Delivery {
    Delivery(event, subscription, Pending, None, 0, 0, MaxAttempts)
  }

  /** One delivery for each listening subscription. */
  function Fanout(subscriptions: seq<Subscription>, event: nat, key: string): seq<Delivery> {
    if subscriptions == [] then []
    else
      var last := |subscriptions| - 1;
      Fanout(subscriptions[..last], event, key) + if Listens(subscriptions[last], key) then [NewDelivery(event, last)] else []
  }

  function DispatchEvent(q: Queue, e: nat): Queue
    requires e < |q.events|
  {
    var key := q.events[e].key;
    q.(deliveries := q.deliveries + Fanout(q.subscriptions, e, key),
       events := q.events[e := Event(key, Some(Audience(q.subscriptions, key)))])
  }

  predicate Undispatched(q: Queue, es: seq<nat>) {
    && (forall i | 0 <= i < |es| :: es[i] < |q.events| && q.events[es[i]].audience.None?)
    && (forall i, j | 0 <= i < j < |es| :: es[i] != es[j])
  }

  function DispatchAll(q: Queue, es: seq<nat>): (r: Queue)
    requires forall i | 0 <= i < |es| :: es[i] < |q.events|
    ensures |r.events| == |q.events| && r.subscriptions == q.subscriptions
  {
    if es == [] then q else DispatchEvent(DispatchAll(q, es[..|es| - 1]), es[|es| - 1])
  }

  /** The oldest undispatched events among the first n that no other dispatcher has locked, at most `limit` of them. */
  function Oldest(events: seq<Event>, n: nat, limit: nat, locked: set<nat>): (es: seq<nat>)
    requires n <= |events|
    ensures forall i | 0 <= i < |es| :: es[i] < n
  {
    if n == 0 then []
    else
      var before := Oldest(events, n - 1, limit, locked);
      if |before| < limit && events[n - 1].audience.None? && n - 1 !in locked then before + [n - 1] else before
  }

  /** Only undispatched, unlocked events are selected, in order of age; those left out are younger, and the limit is reached. */
  lemma {:induction false} OldestExact(events: seq<Event>, n: nat, limit: nat, locked: set<nat>)
    requires n <= |events|
    ensures var es := Oldest(events, n, limit, locked);
            && |es| <= limit
            && (forall i | 0 <= i < |es| :: events[es[i]].audience.None? && es[i] !in locked)
            && (forall i, j | 0 <= i < j < |es| :: es[i] < es[j])
            && (forall e | 0 <= e < n && events[e].audience.None? && e !in locked && e !in es ::
                  |es| == limit && forall i | 0 <= i < |es| :: es[i] < e)
  {
    if n > 0 { OldestExact(events, n - 1, limit, locked); }
  }

  /** One dispatch takes up to a hundred events, and leaves one for later only if it has taken a hundred. */
  lemma DispatchTakes(events: seq<Event>, locked: set<nat>)
    ensures var es := Oldest(events, |events|, DispatchLimit, locked);
            && |es| <= 100
            && forall e | 0 <= e < |events| && events[e].audience.None? && e !in locked && e !in es :: |es| == 100
  {
    OldestExact(events, |events|, DispatchLimit, locked);
  }

  // ---------------------------------------------------------------- leases

  predicate Claimable(d: Delivery, now: int) {
    d.status == Pending || (d.status == Leased && d.leaseUntil < now)
  }

  /** The oldest claimable deliveries among the first n that are not locked, at most `batch` of them. */
  function Selected(rows: seq<Delivery>, n: nat, now: int, batch: nat, locked: set<nat>): seq<nat>
    requires n <= |rows|
  {
    if n == 0 then []
    else
      var before := Selected(rows, n - 1, now, batch, locked);
      if |before| < batch && Claimable(rows[n - 1], now) && n - 1 !in locked then before + [n - 1] else before
  }

  /** Only claimable, unlocked deliveries are selected, in order; and every one of them that is older than a selected one,
      or all of them when the batch is not full. */
  lemma {:induction false} SelectedExact(rows: seq<Delivery>, n: nat, now: int, batch: nat, locked: set<nat>)
    requires n <= |rows|
    ensures var ids := Selected(rows, n, now, batch, locked);
            && |ids| <= batch
            && (forall i | 0 <= i < |ids| :: ids[i] < n && Claimable(rows[ids[i]], now) && ids[i] !in locked)
            && (forall i, j | 0 <= i < j < |ids| :: ids[i] < ids[j])
            && (forall d | 0 <= d < n && Claimable(rows[d], now) && d !in locked && d !in ids ::
                  |ids| == batch && forall i | 0 <= i < |ids| :: ids[i] < d)
  {
    if n > 0 { SelectedExact(rows, n - 1, now, batch, locked); }
  }

  function Lease(d: Delivery, token: Token, until: int): Delivery {
    d.(status := Leased, token := Some(token), leaseUntil := until, attempts := d.attempts + 1)
  }

  function Claim(q: Queue, ids: set<nat>, token: Token, until: int): Queue {
    q.(deliveries := seq(|q.deliveries|, i requires 0 <= i < |q.deliveries| =>
                           if i in ids then Lease(q.deliveries[i], token, until) else q.deliveries[i]))
  }

  /** The rows after leasing those listed. */
  predicate LeasedRows(before: seq<Delivery>, claimed: seq<nat>, token: Token, until: int, rows: seq<Delivery>) {
    |rows| == |before| && forall k | 0 <= k < |rows| :: rows[k] == if k in claimed then Lease(before[k], token, until) else before[k]
  }

  lemma LeaseOneMore(before: seq<Delivery>, claimed: seq<nat>, token: Token, until: int, rows: seq<Delivery>, d: nat)
    requires LeasedRows(before, claimed, token, until, rows) && d < |rows|
    ensures LeasedRows(before, claimed + [d], token, until, rows[d := Lease(before[d], token, until)])
  {
  }

  lemma ClaimedRows(q: Queue, claimed: seq<nat>, token: Token, until: int, rows: seq<Delivery>)
    requires LeasedRows(q.deliveries, claimed, token, until, rows)
    ensures rows == Claim(q, (set d | d in claimed), token, until).deliveries
  {
  }

  predicate Holds(q: Queue, d: nat, token: Token) {
    d < |q.deliveries| && q.deliveries[d].token == Some(token)
  }

  /** Marks the delivery delivered if the token is still the stored one. */
  function Acknowledge(q: Queue, d: nat, token: Token): Queue {
    if Holds(q, d, token)
    then q.(deliveries := q.deliveries[d := q.deliveries[d].(status := Delivered, token := None)])
    else q
  }

  /** Returns the delivery to the queue, or buries it after the last attempt. Whoever reports the failure is not checked. */
  function MarkFailed(q: Queue, d: nat): Queue {
    if d < |q.deliveries|
    then
      var row := q.deliveries[d];
      q.(deliveries := q.deliveries[d := row.(status := if row.attempts >= row.maxAttempts then DeadLetter else Pending, token := None)])
    else q
  }

  // ---------------------------------------------------------------- the engine

  class Engine {
    var events: seq<Event>
    var subscriptions: seq<Subscription>
    var deliveries: seq<Delivery>

    constructor ()
      ensures Rows() == Queue([], [], [])
    {
      events, subscriptions, deliveries := [], [], [];
    }

    function Rows(): Queue
      reads this
    {
      Queue(events, subscriptions, deliveries)
    }

    method SelectUndispatched(locked: set<nat>) returns (pending: seq<nat>)
      ensures pending == Oldest(events, |events|, DispatchLimit, locked) && |pending| <= 100
    {
      pending := [];
      for i := 0 to |events|
        invariant pending == Oldest(events, i, DispatchLimit, locked)
      {
        if |pending| < DispatchLimit && events[i].audience.None? && i !in locked { pending := pending + [i]; }
      }
      OldestExact(events, |events|, DispatchLimit, locked);
    }

    method InsertDeliveries(e: nat, key: string)
      modifies this`deliveries
      ensures deliveries == old(deliveries) + Fanout(subscriptions, e, key)
    {
      for i := 0 to |subscriptions|
        invariant deliveries == old(deliveries) + Fanout(subscriptions[..i], e, key)
      {
        assert subscriptions[..i + 1][..i] == subscriptions[..i];
        if Listens(subscriptions[i], key) { deliveries := deliveries + [NewDelivery(e, i)]; }
      }
      assert subscriptions[..|subscriptions|] == subscriptions;
    }

    /** Creates the deliveries of the oldest undispatched events that no other dispatcher has locked. */
    method DispatchPending(locked: set<nat>) returns (count: nat)
      modifies this`events, this`deliveries
      ensures Rows() == DispatchAll(old(Rows()), Oldest(old(events), |old(events)|, DispatchLimit, locked))
      ensures count == |Oldest(old(events), |old(events)|, DispatchLimit, locked)| <= 100
    {
      var pending := SelectUndispatched(locked);
      for i := 0 to |pending|
        invariant |events| == |old(events)|
        invariant Rows() == DispatchAll(old(Rows()), pending[..i])
      {
        assert pending[..i + 1][..i] == pending[..i];
        var e := pending[i];
        InsertDeliveries(e, events[e].key);
        events := events[e := Event(events[e].key, Some(Audience(subscriptions, events[e].key)))];
      }
      assert pending[..|pending|] == pending;
      return |pending|;
    }

    /** Leases the oldest claimable deliveries that no other worker has locked. */
    method ClaimBatch(token: Token, now: int, lease: nat, batch: nat, locked: set<nat>) returns (claimed: seq<nat>)
      modifies this`deliveries
      ensures claimed == Selected(old(deliveries), |old(deliveries)|, now, batch, locked)
      ensures Rows() == Claim(old(Rows()), (set d | d in claimed), token, now + lease)
    {
      claimed := [];
      var rows := deliveries;
      for d := 0 to |rows|
        invariant claimed == Selected(rows, d, now, batch, locked)
        invariant LeasedRows(rows, claimed, token, now + lease, deliveries)
      {
        if |claimed| < batch && Claimable(rows[d], now) && d !in locked {
          LeaseOneMore(rows, claimed, token, now + lease, deliveries, d);
          claimed := claimed + [d];
          deliveries := deliveries[d := Lease(rows[d], token, now + lease)];
        }
      }
      ClaimedRows(Queue(events, subscriptions, rows), claimed, token, now + lease, deliveries);
    }

    /** Acknowledges under a token; false when the lease has passed to another worker. */
    method Ack(d: nat, token: Token) returns (acknowledged: bool)
      modifies this`deliveries
      ensures Rows() == Acknowledge(old(Rows()), d, token)
      ensures acknowledged == Holds(old(Rows()), d, token)
    {
      acknowledged := d < |deliveries| && deliveries[d].token == Some(token);
      if acknowledged { deliveries := deliveries[d := deliveries[d].(status := Delivered, token := None)]; }
    }

    method Fail(d: nat)
      modifies this`deliveries
      ensures Rows() == MarkFailed(old(Rows()), d)
    {
      if d < |deliveries| {
        var row := deliveries[d];
        var status := if row.attempts >= row.maxAttempts then DeadLetter else Pending;
        deliveries := deliveries[d := row.(status := status, token := None)];
      }
    }
  }
}
