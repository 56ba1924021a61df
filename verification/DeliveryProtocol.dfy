/** Deliverers, crashes, cancellations and operators racing over the outbox. */
module DeliveryProtocol {
  import opened NotificationOutbox

  /** The stored receipts; `ids` names the row behind each key, and row names are never reused. */
  datatype Table = Table(rows: Rows, ids: map<Key, nat>, nextRow: nat)

  /** A delivery in progress. */
  datatype Flight = Flight(key: Key, row: nat, sent: bool)

  /**
   * A send as an observer sees it: for which receipt, when, and after how many reconciliations of that receipt's
   * key.
   */
  datatype Send = Send(key: Key, row: nat, at: real, epoch: nat)

  /**
   * `flights` are the live deliveries, `claims` maps every delivery that ever claimed a row to that row, and
   * `sends` holds the deliveries whose sender was invoked.
   */
  datatype Air = Air(flights: map<nat, Flight>, next: nat, claims: map<nat, nat>, sends: map<nat, Send>)

  /** `redeliveries` counts confirmed-not-delivered reconciliations per row, `epochs` all effective ones per key. */
  datatype System = System(table: Table, air: Air, redeliveries: map<nat, nat>, epochs: map<Key, nat>, clock: real)

  const START := System(Table(map[], map[], 0), Air(map[], 0, map[], map[]), map[], map[], 0.0)

  function CountOf<K>(m: map<K, nat>, k: K): nat
  {
    if k in m then m[k] else 0
  }

  /** The deliveries that claimed `row`, and those that sent for it. */
  function ClaimsOf(claims: map<nat, nat>, row: nat): set<nat>
  {
    set p | p in claims && claims[p] == row
  }

  function SendsOf(sends: map<nat, Send>, row: nat): set<nat>
  {
    set p | p in sends && sends[p].row == row
  }

  // ---------- the atomic steps: a transaction, an invocation of the sender, or the death of a deliverer ----------

  datatype Event =
    | Enqueue(envelope: Envelope, channel: string, now: real)
    | Claim(key: Key, now: real)
    | Invoke(flight: nat, now: real)
    | Finish(flight: nat, outcome: SendOutcome, now: real)
    | Die(flight: nat)
    | Reconcile(key: Key, notDelivered: bool, delivered: bool, now: real)

  function EnqueueIn(t: Table, c: Config, e: Envelope, channel: string, now: real): Table
  {
    var (rows, r) := Enqueued(t.rows, c, e, channel, now);
    if r.Inserted? then
      Table(rows, (map k | k in t.ids && k in rows :: t.ids[k])[Key(e.notificationId, channel) := t.nextRow],
        t.nextRow + 1)
    else t
  }

  function CanClaim(t: Table, key: Key): bool
  {
    key in t.rows && key in t.ids && t.rows[key].state.Pending?
  }

  function Launched(a: Air, key: Key, row: nat): Air
  {
    a.(flights := a.flights[a.next := Flight(key, row, false)], claims := a.claims[a.next := row], next := a.next + 1)
  }

  function Sending(a: Air, p: nat, epoch: nat, now: real): Air
    requires p in a.flights
  {
    var f := a.flights[p];
    a.(flights := a.flights[p := f.(sent := true)], sends := a.sends[p := Send(f.key, f.row, now, epoch)])
  }

  function Landed(a: Air, p: nat): Air
  {
    a.(flights := a.flights - {p})
  }

  function OnEnqueue(s: System, c: Config, env: Envelope, channel: string, now: real): System
  {
    s.(table := EnqueueIn(s.table, c, env, channel, now), clock := now)
  }

  function OnClaim(s: System, key: Key, now: real): System
  {
    if CanClaim(s.table, key) then
      s.(table := s.table.(rows := ClaimedRows(s.table.rows, key, now).0),
         air := Launched(s.air, key, s.table.ids[key]), clock := now)
    else s.(clock := now)
  }

  function OnInvoke(s: System, p: nat, now: real): System
  {
    if p in s.air.flights && !s.air.flights[p].sent then
      s.(air := Sending(s.air, p, CountOf(s.epochs, s.air.flights[p].key), now), clock := now)
    else s.(clock := now)
  }

  function OnFinish(s: System, p: nat, outcome: SendOutcome, now: real): System
  {
    if p in s.air.flights && s.air.flights[p].sent then
      s.(table := s.table.(rows := RecordedRows(s.table.rows, s.air.flights[p].key, outcome, now)),
         air := Landed(s.air, p), clock := now)
    else s.(clock := now)
  }

  /** The operator's word takes effect. */
  predicate Settles(t: Table, key: Key, notDelivered: bool, delivered: bool, now: real)
  {
    ReconciledRows(t.rows, key, notDelivered, delivered, now).1.Reconciled? && key in t.ids
  }

  function OnReconcile(s: System, key: Key, notDelivered: bool, delivered: bool, now: real): System
  {
    if Settles(s.table, key, notDelivered, delivered, now) then
      s.(table := s.table.(rows := ReconciledRows(s.table.rows, key, notDelivered, delivered, now).0),
         redeliveries := Redelivered(s.redeliveries, s.table.ids[key], notDelivered),
         epochs := s.epochs[key := CountOf(s.epochs, key) + 1], clock := now)
    else s.(clock := now)
  }

  function Redelivered(redeliveries: map<nat, nat>, row: nat, notDelivered: bool): map<nat, nat>
  {
    if notDelivered then redeliveries[row := CountOf(redeliveries, row) + 1] else redeliveries
  }

  function Step(s: System, c: Config, e: Event): System
  {
    match e
    case Enqueue(env, channel, now) => OnEnqueue(s, c, env, channel, now)
    case Claim(key, now) => OnClaim(s, key, now)
    case Invoke(p, now) => OnInvoke(s, p, now)
    case Finish(p, outcome, now) => OnFinish(s, p, outcome, now)
    case Die(p) => s.(air := Landed(s.air, p))
    case Reconcile(key, notDelivered, delivered, now) => OnReconcile(s, key, notDelivered, delivered, now)
  }

  function Run(s: System, c: Config, events: seq<Event>): System
    decreases |events|
  {
    if events == [] then s else Run(Step(s, c, events[0]), c, events[1..])
  }

  // ---------- at most one send per claim, one claim per chance ----------

  ghost predicate TableOk(t: Table, c: Config)
  {
    && t.rows.Keys == t.ids.Keys
    && |t.rows.Keys| <= c.maxRecords
    && (forall k :: k in t.ids ==> t.ids[k] < t.nextRow)
    && (forall k, l :: OwnRows(t.ids, k, l))
  }

  ghost predicate OwnRows(ids: map<Key, nat>, k: Key, l: Key)
  {
    k in ids && l in ids && ids[k] == ids[l] ==> k == l
  }

  ghost predicate AirOk(a: Air, nextRow: nat)
  {
    && (forall p :: p in a.claims ==> p < a.next && a.claims[p] < nextRow)
    && (forall p :: p in a.flights ==>
      p in a.claims && a.claims[p] == a.flights[p].row && (a.flights[p].sent <==> p in a.sends))
    && (forall p :: p in a.sends ==> p in a.claims && a.claims[p] == a.sends[p].row)
  }

  ghost predicate Bounded(claims: map<nat, nat>, redeliveries: map<nat, nat>, row: nat)
  {
    |ClaimsOf(claims, row)| <= 1 + CountOf(redeliveries, row)
  }

  /** Every row was claimed at most once, plus once per reconciliation that confirmed non-delivery. */
  ghost predicate ClaimsBounded(claims: map<nat, nat>, redeliveries: map<nat, nat>)
  {
    forall row: nat :: Bounded(claims, redeliveries, row)
  }

  ghost predicate RowCounted(t: Table, claims: map<nat, nat>, redeliveries: map<nat, nat>, k: Key)
  {
    k in t.rows && k in t.ids ==>
      && t.rows[k].attempt == |ClaimsOf(claims, t.ids[k])|
      && (t.rows[k].state.Pending? ==> t.rows[k].attempt <= CountOf(redeliveries, t.ids[k]))
  }

  ghost predicate RowsCounted(t: Table, claims: map<nat, nat>, redeliveries: map<nat, nat>)
  {
    forall k :: RowCounted(t, claims, redeliveries, k)
  }

  ghost predicate Sound(s: System, c: Config)
  {
    && TableOk(s.table, c) && AirOk(s.air, s.table.nextRow)
    && ClaimsBounded(s.air.claims, s.redeliveries) && RowsCounted(s.table, s.air.claims, s.redeliveries)
  }

  /** The table after a receipt was inserted beside the retained ones. */
  function InsertIn(t: Table, kept: Rows, key: Key, r: Row): Table
  {
    Table(kept[key := r], (map k | k in t.ids && k in kept :: t.ids[k])[key := t.nextRow], t.nextRow + 1)
  }

  lemma EnqueueCases(t: Table, c: Config, e: Envelope, channel: string, now: real)
    requires TableOk(t, c)
    ensures var key, u, kept :=
      Key(e.notificationId, channel), EnqueueIn(t, c, e, channel, now), Retained(t.rows, now, c.retention);
      u == t || (key !in t.rows && |kept| < c.maxRecords
        && u == InsertIn(t, kept, key, Row(e, 0, Pending, "", now, now)))
  {
  }

  lemma InsertOk(t: Table, c: Config, kept: Rows, key: Key, r: Row)
    requires TableOk(t, c) && key !in t.rows && kept.Keys <= t.rows.Keys && |kept| < c.maxRecords
    ensures TableOk(InsertIn(t, kept, key, r), c)
  {
    var u := InsertIn(t, kept, key, r);
    assert u.rows.Keys == kept.Keys + {key} && |kept.Keys| == |kept|;
    forall k, l ensures OwnRows(u.ids, k, l) { assert OwnRows(t.ids, k, l); }
  }

  lemma InsertCounted(t: Table, c: Config, kept: Rows, key: Key, r: Row, a: Air, redeliveries: map<nat, nat>)
    requires TableOk(t, c) && key !in t.rows && kept.Keys <= t.rows.Keys && AirOk(a, t.nextRow) && r.attempt == 0
    requires RowsCounted(t, a.claims, redeliveries) && forall k :: k in kept ==> kept[k] == t.rows[k]
    ensures RowsCounted(InsertIn(t, kept, key, r), a.claims, redeliveries)
  {
    assert ClaimsOf(a.claims, t.nextRow) == {};
    forall k ensures RowCounted(InsertIn(t, kept, key, r), a.claims, redeliveries, k) {
      assert RowCounted(t, a.claims, redeliveries, k);
    }
  }

  lemma OneMoreClaim(claims: map<nat, nat>, next: nat, row: nat, r: nat)
    requires next !in claims
    ensures |ClaimsOf(claims[next := row], r)| == |ClaimsOf(claims, r)| + (if r == row then 1 else 0)
  {
    assert ClaimsOf(claims[next := row], r) == if r == row then ClaimsOf(claims, r) + {next} else ClaimsOf(claims, r);
  }

  lemma ClaimBounded(claims: map<nat, nat>, redeliveries: map<nat, nat>, next: nat, row: nat)
    requires ClaimsBounded(claims, redeliveries) && next !in claims
    requires |ClaimsOf(claims, row)| <= CountOf(redeliveries, row)
    ensures ClaimsBounded(claims[next := row], redeliveries)
  {
    var more := claims[next := row];
    forall r: nat ensures Bounded(more, redeliveries, r) {
      OneMoreClaim(claims, next, row, r);
      assert Bounded(claims, redeliveries, r);
    }
  }

  lemma ClaimCounted(t: Table, c: Config, claims: map<nat, nat>, redeliveries: map<nat, nat>, next: nat, key: Key,
                     now: real)
    requires TableOk(t, c) && RowsCounted(t, claims, redeliveries) && next !in claims && CanClaim(t, key)
    ensures var rows := ClaimedRows(t.rows, key, now).0;
      RowsCounted(t.(rows := rows), claims[next := t.ids[key]], redeliveries)
  {
    var u, more := t.(rows := ClaimedRows(t.rows, key, now).0), claims[next := t.ids[key]];
    forall k ensures RowCounted(u, more, redeliveries, k) {
      if k in t.ids { OneMoreClaim(claims, next, t.ids[key], t.ids[k]); }
      assert OwnRows(t.ids, k, key);
      assert RowCounted(t, claims, redeliveries, k);
    }
  }

  lemma ClaimOk(t: Table, c: Config, key: Key, now: real)
    requires TableOk(t, c) && CanClaim(t, key)
    ensures TableOk(t.(rows := ClaimedRows(t.rows, key, now).0), c)
  {
    assert ClaimedRows(t.rows, key, now).0.Keys == t.rows.Keys;
  }

  lemma ClaimSound(s: System, c: Config, key: Key, now: real)
    requires Sound(s, c) && CanClaim(s.table, key)
    ensures Sound(OnClaim(s, key, now), c)
  {
    var row, a := s.table.ids[key], s.air;
    assert a.next !in a.claims;
    assert RowCounted(s.table, a.claims, s.redeliveries, key);
    ClaimOk(s.table, c, key, now);
    ClaimBounded(a.claims, s.redeliveries, a.next, row);
    ClaimCounted(s.table, c, a.claims, s.redeliveries, a.next, key, now);
  }

  /** Replacing rows without making any pending keeps the counts. */
  lemma RowsReplaced(t: Table, c: Config, rows: Rows, claims: map<nat, nat>, redeliveries: map<nat, nat>)
    requires TableOk(t, c) && RowsCounted(t, claims, redeliveries) && rows.Keys == t.rows.Keys
    requires forall k :: k in rows ==>
      rows[k].attempt == t.rows[k].attempt && (rows[k].state.Pending? ==> t.rows[k].state.Pending?)
    ensures TableOk(t.(rows := rows), c) && RowsCounted(t.(rows := rows), claims, redeliveries)
  {
    var u := t.(rows := rows);
    forall k ensures RowCounted(u, claims, redeliveries, k) {
      assert RowCounted(t, claims, redeliveries, k);
    }
  }

  lemma FinishSound(s: System, c: Config, p: nat, outcome: SendOutcome, now: real)
    requires Sound(s, c)
    ensures Sound(OnFinish(s, p, outcome, now), c)
  {
    if p in s.air.flights && s.air.flights[p].sent {
      var rows := RecordedRows(s.table.rows, s.air.flights[p].key, outcome, now);
      RecordedLaw(s.table.rows, s.air.flights[p].key, outcome, now);
      RowsReplaced(s.table, c, rows, s.air.claims, s.redeliveries);
      LandAirOk(s.air, p, s.table.nextRow);
    }
  }

  lemma LandAirOk(a: Air, p: nat, nextRow: nat)
    requires AirOk(a, nextRow)
    ensures AirOk(Landed(a, p), nextRow)
  {
  }

  lemma MoreRedeliveries(t: Table, claims: map<nat, nat>, redeliveries: map<nat, nat>, row: nat)
    requires ClaimsBounded(claims, redeliveries) && RowsCounted(t, claims, redeliveries)
    ensures var more := redeliveries[row := CountOf(redeliveries, row) + 1];
      ClaimsBounded(claims, more) && RowsCounted(t, claims, more)
  {
    var more := redeliveries[row := CountOf(redeliveries, row) + 1];
    forall r: nat ensures Bounded(claims, more, r) { assert Bounded(claims, redeliveries, r); }
    forall k ensures RowCounted(t, claims, more, k) { assert RowCounted(t, claims, redeliveries, k); }
  }

  /** The counts after one row was settled, or made pending on the word that it was not delivered. */
  lemma ReconciledCounts(t: Table, c: Config, claims: map<nat, nat>, redeliveries: map<nat, nat>, rows: Rows, key: Key)
    requires TableOk(t, c) && RowsCounted(t, claims, redeliveries) && rows.Keys == t.rows.Keys && key in t.rows
    requires key in t.ids
    requires rows[key].attempt == t.rows[key].attempt
    requires rows[key].state.Pending? ==> rows[key].attempt <= CountOf(redeliveries, t.ids[key])
    requires forall k :: k in rows && k != key ==> rows[k] == t.rows[k]
    ensures TableOk(t.(rows := rows), c) && RowsCounted(t.(rows := rows), claims, redeliveries)
  {
    var u := t.(rows := rows);
    forall k ensures RowCounted(u, claims, redeliveries, k) {
      assert RowCounted(t, claims, redeliveries, k);
    }
  }

  lemma ReconcileSound(s: System, c: Config, key: Key, notDelivered: bool, delivered: bool, now: real)
    requires Sound(s, c)
    ensures Sound(OnReconcile(s, key, notDelivered, delivered, now), c)
  {
    if Settles(s.table, key, notDelivered, delivered, now) {
      var row, claims := s.table.ids[key], s.air.claims;
      assert Bounded(claims, s.redeliveries, row) && RowCounted(s.table, claims, s.redeliveries, key);
      if notDelivered { MoreRedeliveries(s.table, claims, s.redeliveries, row); }
      var rows := ReconciledRows(s.table.rows, key, notDelivered, delivered, now).0;
      ReconciledLaw(s.table.rows, key, notDelivered, delivered, now);
      ReconciledCounts(s.table, c, claims, Redelivered(s.redeliveries, row, notDelivered), rows, key);
    }
  }

  lemma EnqueueSound(s: System, c: Config, env: Envelope, channel: string, now: real)
    requires Sound(s, c) && c.Valid()
    ensures Sound(OnEnqueue(s, c, env, channel, now), c)
  {
    var t, kept := s.table, Retained(s.table.rows, now, c.retention);
    EnqueueCases(t, c, env, channel, now);
    if EnqueueIn(t, c, env, channel, now) != t {
      var key, r := Key(env.notificationId, channel), Row(env, 0, Pending, "", now, now);
      InsertOk(t, c, kept, key, r);
      InsertCounted(t, c, kept, key, r, s.air, s.redeliveries);
    }
  }

  lemma InvokeSound(s: System, c: Config, p: nat, now: real)
    requires Sound(s, c)
    ensures Sound(OnInvoke(s, p, now), c)
  {
    if p in s.air.flights && !s.air.flights[p].sent {
    }
  }

  lemma StepSound(s: System, c: Config, e: Event)
    requires Sound(s, c) && c.Valid()
    ensures Sound(Step(s, c, e), c)
  {
    match e
    case Enqueue(env, channel, now) => EnqueueSound(s, c, env, channel, now);
    case Claim(key, now) => if CanClaim(s.table, key) { ClaimSound(s, c, key, now); }
    case Invoke(p, now) => InvokeSound(s, c, p, now);
    case Finish(p, outcome, now) => FinishSound(s, c, p, outcome, now);
    case Die(p) => LandAirOk(s.air, p, s.table.nextRow);
    case Reconcile(key, notDelivered, delivered, now) => ReconcileSound(s, c, key, notDelivered, delivered, now);
  }

  lemma {:induction false} RunSound(s: System, c: Config, events: seq<Event>)
    requires Sound(s, c) && c.Valid()
    ensures Sound(Run(s, c, events), c)
    decreases |events|
  {
    if events != [] {
      StepSound(s, c, events[0]);
      RunSound(Step(s, c, events[0]), c, events[1..]);
    }
  }

  lemma StartSound(c: Config)
    ensures Sound(START, c)
  {
    forall r: nat ensures Bounded(START.air.claims, START.redeliveries, r) {
      assert ClaimsOf(START.air.claims, r) == {};
    }
  }

  lemma SubsetSize<T>(a: set<T>, b: set<T>)
    requires a <= b
    ensures |a| <= |b|
  {
    assert b == a + (b - a);
  }

  /**
   * At-most-once delivery: whatever the interleaving, a receipt is sent no more often than it was attempted,
   * and attempted at most once per explicit confirmation that the previous attempt was not delivered.
   */
  lemma AtMostOnce(c: Config, events: seq<Event>, key: Key)
    requires c.Valid() && key in Run(START, c, events).table.rows
    ensures var s := Run(START, c, events);
      key in s.table.ids && var row := s.table.ids[key];
      && |SendsOf(s.air.sends, row)| <= s.table.rows[key].attempt
      && s.table.rows[key].attempt + (if s.table.rows[key].state.Pending? then 1 else 0)
        <= 1 + CountOf(s.redeliveries, row)
  {
    StartSound(c);
    RunSound(START, c, events);
    var s := Run(START, c, events);
    var row := s.table.ids[key];
    SubsetSize(SendsOf(s.air.sends, row), ClaimsOf(s.air.claims, row));
    assert RowCounted(s.table, s.air.claims, s.redeliveries, key) && Bounded(s.air.claims, s.redeliveries, row);
  }

  /** The same for receipts that are no longer stored, and the bound on the table. */
  lemma AtMostOnceEver(c: Config, events: seq<Event>, row: nat)
    requires c.Valid()
    ensures var s := Run(START, c, events);
      |SendsOf(s.air.sends, row)| <= 1 + CountOf(s.redeliveries, row) && |s.table.rows| <= c.maxRecords
  {
    StartSound(c);
    RunSound(START, c, events);
    var s := Run(START, c, events);
    SubsetSize(SendsOf(s.air.sends, row), ClaimsOf(s.air.claims, row));
    assert |s.table.rows| == |s.table.rows.Keys|;
    assert Bounded(s.air.claims, s.redeliveries, row);
  }
}
