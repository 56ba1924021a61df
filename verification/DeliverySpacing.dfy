/** How far apart two sends of the same receipt are when operators reconcile only receipts nobody is delivering. */
module DeliverySpacing {
  import opened NotificationOutbox
  import opened DeliveryProtocol

  function Time(e: Event, clock: real): real
  {
    match e
    case Die(_) => clock
    case _ => e.now
  }

  /** Clock readings never go back. */
  ghost predicate Timed(clock: real, events: seq<Event>)
    decreases |events|
  {
    events == [] || (Time(events[0], clock) >= clock && Timed(Time(events[0], clock), events[1..]))
  }

  predicate Idle(a: Air, key: Key)
  {
    forall p :: p in a.flights ==> a.flights[p].key != key
  }

  predicate Reconciles(t: Table, e: Event)
  {
    e.Reconcile? && Settles(t, e.key, e.notDelivered, e.delivered, e.now)
  }

  /** A reconciliation that takes effect, of a receipt that is being delivered. */
  predicate Intrudes(s: System, e: Event)
  {
    Reconciles(s.table, e) && !Idle(s.air, e.key)
  }

  /** Receipts are reconciled only while no delivery of them is in progress. */
  ghost predicate Quiet(s: System, c: Config, events: seq<Event>)
    decreases |events|
  {
    events == [] || (!Intrudes(s, events[0]) && Quiet(Step(s, c, events[0]), c, events[1..]))
  }

  /** The row behind a live delivery exists, is claimed, and nobody else delivers it. */
  ghost predicate Live(t: Table, a: Air, p: nat)
    requires p in a.flights
  {
    var k := a.flights[p].key;
    && k in t.rows && k in t.ids && t.ids[k] == a.flights[p].row && t.rows[k].state.Unknown?
    && forall q :: q in a.flights && a.flights[q].key == k ==> q == p
  }

  /** The receipt of a send is still settled and will outlive the retention period counted from the send. */
  ghost predicate Holding(t: Table, a: Air, p: nat)
    requires p in a.sends
  {
    var k := a.sends[p].key;
    && k in t.rows && k in t.ids && t.ids[k] == a.sends[p].row && !t.rows[k].state.Pending?
    && (forall q :: q in a.flights && a.flights[q].key == k ==> q == p)
    && (t.rows[k].state.Sent? || t.rows[k].state.Failed? ==> t.rows[k].updatedAt >= a.sends[p].at)
  }

  ghost predicate SendOk(t: Table, a: Air, epochs: map<Key, nat>, clock: real, retention: real, p: nat)
    requires p in a.sends
  {
    var x := a.sends[p];
    && x.at <= clock && x.epoch <= CountOf(epochs, x.key)
    && (x.epoch == CountOf(epochs, x.key) ==> Holding(t, a, p) || x.at + retention < clock)
  }

  /** Two sends of one receipt with no reconciliation between them are more than the retention period apart. */
  ghost predicate Apart(sends: map<nat, Send>, retention: real)
  {
    forall p, q :: FarApart(sends, retention, p, q)
  }

  predicate FarApart(sends: map<nat, Send>, retention: real, p: nat, q: nat)
  {
    p in sends && q in sends && p != q && sends[p].key == sends[q].key && sends[p].epoch == sends[q].epoch ==>
      sends[p].at + retention < sends[q].at || sends[q].at + retention < sends[p].at
  }

  ghost predicate AllLive(t: Table, a: Air)
  {
    forall p :: p in a.flights ==> Live(t, a, p)
  }

  ghost predicate SendsOk(t: Table, a: Air, epochs: map<Key, nat>, clock: real, retention: real)
  {
    forall p :: p in a.sends ==> SendOk(t, a, epochs, clock, retention, p)
  }

  ghost predicate Spaced(s: System, c: Config)
  {
    AllLive(s.table, s.air) && SendsOk(s.table, s.air, s.epochs, s.clock, c.retention)
      && Apart(s.air.sends, c.retention)
  }

  ghost predicate Spacious(s: System, c: Config)
  {
    Sound(s, c) && Spaced(s, c)
  }

  // ---------- every event keeps the spacing ----------

  /** Time may pass. */
  lemma Later(s: System, u: System, c: Config)
    requires Spaced(s, c) && u == s.(clock := u.clock) && u.clock >= s.clock
    ensures Spaced(u, c)
  {
    forall p | p in u.air.sends ensures SendOk(u.table, u.air, u.epochs, u.clock, c.retention, p) {
      assert SendOk(s.table, s.air, s.epochs, s.clock, c.retention, p);
    }
  }

  /** What an enqueue leaves of the table: expired receipts may go, everything else keeps its row. */
  lemma EnqueueKeeps(t: Table, c: Config, e: Envelope, channel: string, now: real)
    requires TableOk(t, c)
    ensures var u := EnqueueIn(t, c, e, channel, now);
      forall k :: k in t.rows ==>
        (k in u.rows && k in u.ids && u.rows[k] == t.rows[k] && u.ids[k] == t.ids[k])
          || Expired(t.rows[k], now, c.retention)
  {
    EnqueueCases(t, c, e, channel, now);
  }

  lemma EnqueueLive(t: Table, c: Config, a: Air, e: Envelope, channel: string, now: real)
    requires TableOk(t, c) && AllLive(t, a)
    ensures AllLive(EnqueueIn(t, c, e, channel, now), a)
  {
    EnqueueKeeps(t, c, e, channel, now);
    forall p | p in a.flights ensures Live(EnqueueIn(t, c, e, channel, now), a, p) { assert Live(t, a, p); }
  }

  lemma EnqueueSends(s: System, c: Config, e: Envelope, channel: string, now: real)
    requires TableOk(s.table, c) && SendsOk(s.table, s.air, s.epochs, s.clock, c.retention) && now >= s.clock
    ensures SendsOk(EnqueueIn(s.table, c, e, channel, now), s.air, s.epochs, now, c.retention)
  {
    var u := EnqueueIn(s.table, c, e, channel, now);
    EnqueueKeeps(s.table, c, e, channel, now);
    forall p | p in s.air.sends ensures SendOk(u, s.air, s.epochs, now, c.retention, p) {
      assert SendOk(s.table, s.air, s.epochs, s.clock, c.retention, p);
    }
  }

  lemma EnqueueSpaced(s: System, c: Config, e: Envelope, channel: string, now: real)
    requires Spacious(s, c) && now >= s.clock
    ensures Spaced(OnEnqueue(s, c, e, channel, now), c)
  {
    EnqueueLive(s.table, c, s.air, e, channel, now);
    EnqueueSends(s, c, e, channel, now);
  }

  lemma ClaimLive(t: Table, a: Air, key: Key, now: real)
    requires AllLive(t, a) && CanClaim(t, key) && a.next !in a.flights
    ensures AllLive(t.(rows := ClaimedRows(t.rows, key, now).0), Launched(a, key, t.ids[key]))
  {
    var u, b := t.(rows := ClaimedRows(t.rows, key, now).0), Launched(a, key, t.ids[key]);
    forall q | q in a.flights ensures a.flights[q].key != key { assert Live(t, a, q); }
    forall p | p in b.flights ensures Live(u, b, p) {
      if p in a.flights { assert Live(t, a, p); }
    }
  }

  lemma ClaimSends(s: System, c: Config, key: Key, now: real)
    requires SendsOk(s.table, s.air, s.epochs, s.clock, c.retention) && CanClaim(s.table, key) && now >= s.clock
    ensures var u := OnClaim(s, key, now); SendsOk(u.table, u.air, u.epochs, u.clock, c.retention)
  {
    var u := OnClaim(s, key, now);
    forall p | p in u.air.sends ensures SendOk(u.table, u.air, u.epochs, u.clock, c.retention, p) {
      assert SendOk(s.table, s.air, s.epochs, s.clock, c.retention, p);
    }
  }

  lemma ClaimSpaced(s: System, c: Config, key: Key, now: real)
    requires Spacious(s, c) && now >= s.clock
    ensures Spaced(OnClaim(s, key, now), c)
  {
    if CanClaim(s.table, key) {
      ClaimLive(s.table, s.air, key, now);
      ClaimSends(s, c, key, now);
    } else {
      Later(s, OnClaim(s, key, now), c);
    }
  }

  /** Whatever leaves a live flight's row and the other flights of its key alone leaves it live. */
  lemma StillLive(t: Table, a: Air, u: Table, b: Air)
    requires AllLive(t, a) && u.ids == t.ids && u.rows.Keys == t.rows.Keys
    requires forall p :: p in b.flights ==>
      p in a.flights && b.flights[p].key == a.flights[p].key && b.flights[p].row == a.flights[p].row
    requires forall p :: p in b.flights && b.flights[p].key in t.rows ==>
      u.rows[b.flights[p].key] == t.rows[b.flights[p].key]
    ensures AllLive(u, b)
  {
    forall p | p in b.flights ensures Live(u, b, p) { assert Live(t, a, p); }
  }

  lemma NewSendApart(s: System, c: Config, f: nat, now: real)
    requires Spaced(s, c) && AllLive(s.table, s.air) && now >= s.clock && f in s.air.flights && f !in s.air.sends
    ensures Apart(Sending(s.air, f, CountOf(s.epochs, s.air.flights[f].key), now).sends, c.retention)
  {
    var key, epoch := s.air.flights[f].key, CountOf(s.epochs, s.air.flights[f].key);
    var sends := Sending(s.air, f, epoch, now).sends;
    forall p | p in s.air.sends && s.air.sends[p].key == key && s.air.sends[p].epoch == epoch
      ensures s.air.sends[p].at + c.retention < now
    {
      assert SendOk(s.table, s.air, s.epochs, s.clock, c.retention, p);
    }
    forall p, q ensures FarApart(sends, c.retention, p, q) { assert FarApart(s.air.sends, c.retention, p, q); }
  }

  lemma InvokeSends(s: System, c: Config, f: nat, now: real)
    requires Spaced(s, c) && now >= s.clock && f in s.air.flights && !s.air.flights[f].sent
    ensures var u := OnInvoke(s, f, now); SendsOk(u.table, u.air, u.epochs, u.clock, c.retention)
  {
    var u := OnInvoke(s, f, now);
    assert Live(s.table, s.air, f);
    forall p | p in u.air.sends ensures SendOk(u.table, u.air, u.epochs, u.clock, c.retention, p) {
      if p != f { assert SendOk(s.table, s.air, s.epochs, s.clock, c.retention, p); }
    }
  }

  lemma InvokeSpaced(s: System, c: Config, f: nat, now: real)
    requires Spacious(s, c) && now >= s.clock
    ensures Spaced(OnInvoke(s, f, now), c)
  {
    if f in s.air.flights && !s.air.flights[f].sent {
      StillLive(s.table, s.air, s.table, Sending(s.air, f, CountOf(s.epochs, s.air.flights[f].key), now));
      InvokeSends(s, c, f, now);
      NewSendApart(s, c, f, now);
    } else {
      Later(s, OnInvoke(s, f, now), c);
    }
  }

  lemma DieSpaced(s: System, c: Config, f: nat)
    requires Spaced(s, c)
    ensures Spaced(s.(air := Landed(s.air, f)), c)
  {
    var b := Landed(s.air, f);
    StillLive(s.table, s.air, s.table, b);
    forall p | p in b.sends ensures SendOk(s.table, b, s.epochs, s.clock, c.retention, p) {
      assert SendOk(s.table, s.air, s.epochs, s.clock, c.retention, p);
    }
  }

  lemma FinishHolds(t: Table, a: Air, f: nat, outcome: SendOutcome, now: real, p: nat)
    requires AllLive(t, a) && f in a.flights && p in a.sends && Holding(t, a, p) && a.sends[p].at <= now
    ensures Holding(t.(rows := RecordedRows(t.rows, a.flights[f].key, outcome, now)), Landed(a, f), p)
  {
    RecordedLaw(t.rows, a.flights[f].key, outcome, now);
    assert Live(t, a, f);
  }

  lemma FinishSends(s: System, c: Config, f: nat, outcome: SendOutcome, now: real)
    requires Spaced(s, c) && now >= s.clock && f in s.air.flights && s.air.flights[f].sent
    ensures var u := OnFinish(s, f, outcome, now); SendsOk(u.table, u.air, u.epochs, u.clock, c.retention)
  {
    var u := OnFinish(s, f, outcome, now);
    forall p | p in u.air.sends ensures SendOk(u.table, u.air, u.epochs, u.clock, c.retention, p) {
      assert SendOk(s.table, s.air, s.epochs, s.clock, c.retention, p);
      if Holding(s.table, s.air, p) { FinishHolds(s.table, s.air, f, outcome, now, p); }
    }
  }

  lemma FinishLive(t: Table, a: Air, f: nat, outcome: SendOutcome, now: real)
    requires AllLive(t, a) && f in a.flights
    ensures AllLive(t.(rows := RecordedRows(t.rows, a.flights[f].key, outcome, now)), Landed(a, f))
  {
    var rows := RecordedRows(t.rows, a.flights[f].key, outcome, now);
    RecordedLaw(t.rows, a.flights[f].key, outcome, now);
    assert Live(t, a, f);
    StillLive(t, a, t.(rows := rows), Landed(a, f));
  }

  lemma FinishSpaced(s: System, c: Config, f: nat, outcome: SendOutcome, now: real)
    requires Spacious(s, c) && now >= s.clock
    ensures Spaced(OnFinish(s, f, outcome, now), c)
  {
    if f in s.air.flights && s.air.flights[f].sent {
      FinishLive(s.table, s.air, f, outcome, now);
      FinishSends(s, c, f, outcome, now);
    } else {
      Later(s, OnFinish(s, f, outcome, now), c);
    }
  }

  /** A reconciliation starts a new epoch, so nothing is claimed any more about earlier sends of the receipt. */
  lemma ReconcileSends(s: System, c: Config, key: Key, rows: Rows, now: real)
    requires SendsOk(s.table, s.air, s.epochs, s.clock, c.retention) && now >= s.clock && rows.Keys == s.table.rows.Keys
    requires forall k :: k in rows && k != key ==> rows[k] == s.table.rows[k]
    ensures SendsOk(s.table.(rows := rows), s.air, s.epochs[key := CountOf(s.epochs, key) + 1], now, c.retention)
  {
    var u, epochs := s.table.(rows := rows), s.epochs[key := CountOf(s.epochs, key) + 1];
    forall p | p in s.air.sends ensures SendOk(u, s.air, epochs, now, c.retention, p) {
      assert SendOk(s.table, s.air, s.epochs, s.clock, c.retention, p);
    }
  }

  lemma ReconcileSpaced(s: System, c: Config, key: Key, notDelivered: bool, delivered: bool, now: real)
    requires Spacious(s, c) && now >= s.clock && !Intrudes(s, Reconcile(key, notDelivered, delivered, now))
    ensures Spaced(OnReconcile(s, key, notDelivered, delivered, now), c)
  {
    if Settles(s.table, key, notDelivered, delivered, now) {
      var rows := ReconciledRows(s.table.rows, key, notDelivered, delivered, now).0;
      ReconciledLaw(s.table.rows, key, notDelivered, delivered, now);
      StillLive(s.table, s.air, s.table.(rows := rows), s.air);
      ReconcileSends(s, c, key, rows, now);
    } else {
      Later(s, OnReconcile(s, key, notDelivered, delivered, now), c);
    }
  }

  lemma StepSpaced(s: System, c: Config, e: Event)
    requires Spacious(s, c) && Time(e, s.clock) >= s.clock && !Intrudes(s, e)
    ensures Spaced(Step(s, c, e), c)
  {
    match e
    case Enqueue(env, channel, now) => EnqueueSpaced(s, c, env, channel, now);
    case Claim(key, now) => ClaimSpaced(s, c, key, now);
    case Invoke(p, now) => InvokeSpaced(s, c, p, now);
    case Finish(p, o, now) => FinishSpaced(s, c, p, o, now);
    case Die(p) => DieSpaced(s, c, p);
    case Reconcile(key, nd, d, now) => ReconcileSpaced(s, c, key, nd, d, now);
  }

  lemma StepClock(s: System, c: Config, e: Event)
    ensures Step(s, c, e).clock == Time(e, s.clock)
  {
  }

  lemma {:induction false} RunSpacious(s: System, c: Config, events: seq<Event>)
    requires Spacious(s, c) && c.Valid() && Timed(s.clock, events) && Quiet(s, c, events)
    ensures Spacious(Run(s, c, events), c)
    decreases |events|
  {
    if events != [] {
      StepSound(s, c, events[0]);
      StepSpaced(s, c, events[0]);
      StepClock(s, c, events[0]);
      RunSpacious(Step(s, c, events[0]), c, events[1..]);
    }
  }

  /**
   * Bounded retention still deduplicates: if receipts are only reconciled while nobody delivers them, two sends
   * of one receipt with no reconciliation between them are more than the retention period apart.
   */
  lemma SendsSpaced(c: Config, events: seq<Event>)
    requires c.Valid() && Timed(0.0, events) && Quiet(START, c, events)
    ensures Apart(Run(START, c, events).air.sends, c.retention)
  {
    StartSound(c);
    RunSpacious(START, c, events);
  }

  // ---------- reconciling a receipt that is being delivered ----------

  /** A timed and quiet run leads from one state to the other. */
  ghost predicate Leads(s: System, c: Config, events: seq<Event>, t: System)
  {
    Timed(s.clock, events) && Quiet(s, c, events) && Run(s, c, events) == t
  }

  lemma {:induction false} LeadsOn(s: System, c: Config, events: seq<Event>, t: System, e: Event)
    requires Leads(s, c, events, t) && Time(e, t.clock) >= t.clock && !Intrudes(t, e)
    ensures Leads(s, c, events + [e], Step(t, c, e))
    decreases |events|
  {
    if events == [] {
      assert [e][1..] == [];
    } else {
      StepClock(s, c, events[0]);
      LeadsOn(Step(s, c, events[0]), c, events[1..], t, e);
      assert (events + [e])[1..] == events[1..] + [e];
    }
  }

  ghost predicate CanReach(s: System, c: Config, t: System)
  {
    exists events :: Leads(s, c, events, t)
  }

  lemma Here(s: System, c: Config)
    ensures CanReach(s, c, s)
  {
    assert Leads(s, c, [], s);
  }

  lemma Onwards(s: System, c: Config, t: System, e: Event)
    requires CanReach(s, c, t) && Time(e, t.clock) >= t.clock && !Intrudes(t, e)
    ensures CanReach(s, c, Step(t, c, e))
  {
    var events :| Leads(s, c, events, t);
    LeadsOn(s, c, events, t, e);
  }

  /** Short enough to be enqueued. */
  predicate Fits(key: Key)
  {
    |key.notificationId| <= 256 && |key.channel| <= 256
  }

  function Notice(id: string): Envelope
  {
    Envelope(id, "", "", "", "", "", "", 0, Pending)
  }

  function Offer(key: Key, now: real): Event
  {
    Enqueue(Notice(key.notificationId), key.channel, now)
  }

  /** Another receipt that is neither stored nor being delivered. */
  ghost predicate Spare(t: Table, a: Air, key: Key, other: Key)
  {
    Fits(other) && other != key && other !in t.rows && Idle(a, other)
  }

  lemma EnqueueInserts(t: Table, c: Config, key: Key, now: real)
    requires TableOk(t, c) && Fits(key) && key !in t.rows && |Retained(t.rows, now, c.retention)| < c.maxRecords
    ensures EnqueueIn(t, c, Notice(key.notificationId), key.channel, now)
      == InsertIn(t, Retained(t.rows, now, c.retention), key, Row(Notice(key.notificationId), 0, Pending, "", now, now))
  {
  }

  /** An enqueue that expires a row makes room for the new one. */
  lemma OfferInserts(t: Table, c: Config, key: Key, expired: Key, now: real)
    requires TableOk(t, c) && Fits(key) && key !in t.rows && expired in t.rows
    requires Expired(t.rows[expired], now, c.retention)
    ensures var u := EnqueueIn(t, c, Notice(key.notificationId), key.channel, now);
      TableOk(u, c) && CanClaim(u, key) && expired !in u.rows && u.rows.Keys <= t.rows.Keys + {key}
  {
    var kept := Retained(t.rows, now, c.retention);
    assert kept.Keys <= t.rows.Keys - {expired};
    Smaller(kept.Keys, t.rows.Keys - {expired});
    assert |kept| == |kept.Keys|;
    EnqueueInserts(t, c, key, now);
    Inserts(t, c, kept, key, Row(Notice(key.notificationId), 0, Pending, "", now, now), expired);
  }

  lemma Inserts(t: Table, c: Config, kept: Rows, key: Key, r: Row, expired: Key)
    requires TableOk(t, c) && key !in t.rows && kept.Keys <= t.rows.Keys - {expired} && |kept| < c.maxRecords
    requires r.state.Pending?
    requires expired in t.rows
    ensures var u := InsertIn(t, kept, key, r);
      TableOk(u, c) && CanClaim(u, key) && expired !in u.rows && u.rows.Keys <= t.rows.Keys + {key}
  {
    InsertOk(t, c, kept, key, r);
  }

  lemma Smaller<T>(a: set<T>, b: set<T>)
    requires a <= b
    ensures |a| <= |b|
  {
    assert b == a + (b - a);
  }

  predicate SettledRow(t: Table, key: Key, clock: real)
  {
    key in t.rows && t.rows[key].state.Sent? && t.rows[key].updatedAt <= clock
  }

  lemma SettleOther(t: Table, c: Config, other: Key, now: real)
    requires TableOk(t, c) && CanClaim(t, other)
    ensures Settles(t, other, false, true, now)
    ensures var u := t.(rows := ReconciledRows(t.rows, other, false, true, now).0);
      TableOk(u, c) && SettledRow(u, other, now) && u.rows.Keys == t.rows.Keys
  {
    assert ReconciledRows(t.rows, other, false, true, now).0.Keys == t.rows.Keys;
  }

  /** A settled receipt expires when another one is enqueued and settled in its place. */
  lemma Replace(s: System, c: Config, t: System, key: Key, other: Key) returns (w: System)
    requires c.Valid() && CanReach(s, c, t) && TableOk(t.table, c) && Spare(t.table, t.air, key, other)
    requires SettledRow(t.table, key, t.clock)
    ensures CanReach(s, c, w) && TableOk(w.table, c) && w.air == t.air
    ensures key !in w.table.rows && SettledRow(w.table, other, w.clock)
  {
    var late := t.clock + c.retention + 1.0;
    OfferInserts(t.table, c, other, key, late);
    Onwards(s, c, t, Offer(other, late));
    var v := OnEnqueue(t, c, Notice(other.notificationId), other.channel, late);
    SettleOther(v.table, c, other, late);
    Onwards(s, c, v, Reconcile(other, false, true, late));
    w := OnReconcile(v, other, false, true, late);
  }

  /** Then it is enqueued afresh, without touching any delivery. */
  lemma Requeue(s: System, c: Config, t: System, key: Key, other: Key) returns (u: System)
    requires c.Valid() && CanReach(s, c, t) && TableOk(t.table, c) && Fits(key) && Spare(t.table, t.air, key, other)
    requires SettledRow(t.table, key, t.clock)
    ensures CanReach(s, c, u) && TableOk(u.table, c) && CanClaim(u.table, key) && u.air == t.air
    ensures other !in u.table.rows
  {
    var w := Replace(s, c, t, key, other);
    var late := w.clock + c.retention + 1.0;
    OfferInserts(w.table, c, key, other, late);
    Onwards(s, c, w, Offer(key, late));
    u := OnEnqueue(w, c, Notice(key.notificationId), key.channel, late);
  }

  /** A pending receipt beside a delivery that has not sent yet: both send at the same moment. */
  lemma PendingBesideUnsent(s: System, c: Config, t: System, p: nat) returns (u: System)
    requires c.Valid() && CanReach(s, c, t) && p in t.air.flights && !t.air.flights[p].sent && p != t.air.next
    requires CanClaim(t.table, t.air.flights[p].key)
    ensures CanReach(s, c, u) && !Apart(u.air.sends, c.retention)
  {
    var key, now, q := t.air.flights[p].key, t.clock, t.air.next;
    Onwards(s, c, t, Claim(key, now));
    var v := OnClaim(t, key, now);
    Onwards(s, c, v, Invoke(p, now));
    var w := OnInvoke(v, p, now);
    Onwards(s, c, w, Invoke(q, now));
    u := OnInvoke(w, q, now);
    assert !FarApart(u.air.sends, c.retention, p, q);
  }

  lemma FinishSettles(t: Table, c: Config, key: Key, now: real)
    requires TableOk(t, c) && key in t.rows
    ensures var u := t.(rows := RecordedRows(t.rows, key, Delivered, now));
      TableOk(u, c) && SettledRow(u, key, now) && u.rows.Keys == t.rows.Keys
  {
    assert RecordedRows(t.rows, key, Delivered, now).Keys == t.rows.Keys;
  }

  /**
   * A pending receipt beside a delivery that has sent: its final update settles the receipt under the next
   * delivery.
   */
  lemma PendingBesideSent(s: System, c: Config, t: System, p: nat, other: Key) returns (u: System)
    requires c.Valid() && CanReach(s, c, t) && TableOk(t.table, c) && p in t.air.flights && t.air.flights[p].sent
    requires p < t.air.next
    requires var key := t.air.flights[p].key; CanClaim(t.table, key) && Fits(key) && Spare(t.table, t.air, key, other)
    ensures CanReach(s, c, u) && !Apart(u.air.sends, c.retention)
  {
    var key, now, q := t.air.flights[p].key, t.clock, t.air.next;
    ClaimOk(t.table, c, key, now);
    Onwards(s, c, t, Claim(key, now));
    var v := OnClaim(t, key, now);
    FinishSettles(v.table, c, key, now);
    Onwards(s, c, v, Finish(p, Delivered, now));
    var w := OnFinish(v, p, Delivered, now);
    var x := Requeue(s, c, w, key, other);
    u := PendingBesideUnsent(s, c, x, q);
  }

  lemma OtherIsSpare(t: Table, a: Air, key: Key, other: Key)
    requires AllLive(t, a) && Fits(other) && other != key && other !in t.rows
    ensures Spare(t, a, key, other)
  {
    forall f | f in a.flights ensures a.flights[f].key != other { assert Live(t, a, f); }
  }

  lemma ReconciledTable(t: Table, c: Config, e: Event)
    requires TableOk(t, c) && Reconciles(t, e)
    ensures var u := t.(rows := ReconciledRows(t.rows, e.key, e.notDelivered, e.delivered, e.now).0);
      TableOk(u, c) && u.rows.Keys == t.rows.Keys
        && (if e.delivered then SettledRow(u, e.key, e.now) else CanClaim(u, e.key))
  {
    ReconciledLaw(t.rows, e.key, e.notDelivered, e.delivered, e.now);
  }

  /** A receipt that is being delivered, once it is pending or confirmed: its sends can come together. */
  lemma Racing(t: System, c: Config, p: nat, confirmed: bool, other: Key) returns (u: System)
    requires c.Valid() && TableOk(t.table, c) && p in t.air.flights && p < t.air.next
    requires Fits(t.air.flights[p].key) && Spare(t.table, t.air, t.air.flights[p].key, other)
    requires if confirmed then SettledRow(t.table, t.air.flights[p].key, t.clock)
      else CanClaim(t.table, t.air.flights[p].key)
    ensures CanReach(t, c, u) && !Apart(u.air.sends, c.retention)
  {
    Here(t, c);
    var v := t;
    if confirmed { v := Requeue(t, c, t, t.air.flights[p].key, other); }
    if t.air.flights[p].sent {
      u := PendingBesideSent(t, c, v, p, other);
    } else {
      u := PendingBesideUnsent(t, c, v, p);
    }
  }

  /** Whatever the operator says about it. */
  lemma RacingReconcile(s: System, c: Config, p: nat, e: Event, other: Key) returns (u: System)
    requires Spacious(s, c) && c.Valid() && p in s.air.flights && Reconciles(s.table, e)
    requires e.key == s.air.flights[p].key && Fits(e.key) && Fits(other) && other != e.key && other !in s.table.rows
    ensures CanReach(Step(s, c, e), c, u) && !Apart(u.air.sends, c.retention)
  {
    ReconciledTable(s.table, c, e);
    OtherIsSpare(s.table, s.air, e.key, other);
    u := Racing(OnReconcile(s, e.key, e.notDelivered, e.delivered, e.now), c, p, e.delivered, other);
  }

  lemma {:induction false} KeysFit(s: System, c: Config, events: seq<Event>)
    requires forall k :: k in s.table.rows ==> Fits(k)
    ensures forall k :: k in Run(s, c, events).table.rows ==> Fits(k)
    decreases |events|
  {
    if events != [] {
      var t := Step(s, c, events[0]);
      forall k | k in t.table.rows ensures Fits(k) { }
      KeysFit(t, c, events[1..]);
    }
  }

  /**
   * What one reconciliation decides: after a run in which only idle receipts were reconciled, and given one more
   * receipt to offer, all continuations of that kind keep the sends apart exactly if the receipt is idle now.
   */
  lemma ReconcileExactly(c: Config, before: seq<Event>, e: Event, other: Key)
    requires c.Valid() && Timed(0.0, before) && Quiet(START, c, before)
    requires var s := Run(START, c, before); Reconciles(s.table, e) && e.now >= s.clock && other !in s.table.rows
    requires Fits(other) && other != e.key
    ensures var s := Run(START, c, before);
      Idle(s.air, e.key) <==> forall t :: CanReach(Step(s, c, e), c, t) ==> Apart(t.air.sends, c.retention)
  {
    StartSound(c);
    RunSpacious(START, c, before);
    var s := Run(START, c, before);
    if Idle(s.air, e.key) {
      StepSound(s, c, e);
      StepSpaced(s, c, e);
      forall t | CanReach(Step(s, c, e), c, t) ensures Apart(t.air.sends, c.retention) {
        var events :| Leads(Step(s, c, e), c, events, t);
        RunSpacious(Step(s, c, e), c, events);
      }
    } else {
      var p :| p in s.air.flights && s.air.flights[p].key == e.key;
      KeysFit(START, c, before);
      var t := RacingReconcile(s, c, p, e, other);
    }
  }

  // ---------- the shortest such run ----------

  /**
   * An operator denies a delivery whose sender has not been invoked yet: the receipt is claimed again and both
   * send.
   */
  function RacingRun(): seq<Event>
  {
    var key := Key("a", "");
    [Enqueue(Notice("a"), "", 0.0), Claim(key, 0.0), Reconcile(key, true, false, 0.0), Claim(key, 0.0),
     Invoke(0, 0.0), Invoke(1, 0.0)]
  }

  /** The receipt after `attempt` claims. */
  function Raced(attempt: nat, state: DeliveryState, code: string, air: Air, reconciled: nat): System
  {
    var key := Key("a", "");
    System(Table(map[key := Row(Notice("a"), attempt, state, code, 0.0, 0.0)], map[key := 0], 1), air,
           if reconciled == 0 then map[] else map[0 := reconciled],
           if reconciled == 0 then map[] else map[key := reconciled], 0.0)
  }

  function OneUp(): Air
  {
    Air(map[0 := Flight(Key("a", ""), 0, false)], 1, map[0 := 0], map[])
  }

  function TwoUp(): Air
  {
    Air(map[0 := Flight(Key("a", ""), 0, false), 1 := Flight(Key("a", ""), 0, false)], 2, map[0 := 0, 1 := 0], map[])
  }

  lemma RacingBegins(c: Config)
    requires c.Valid()
    ensures Step(START, c, RacingRun()[0]) == Raced(0, Pending, "", START.air, 0)
    ensures Step(Raced(0, Pending, "", START.air, 0), c, RacingRun()[1]) == Raced(1, Unknown, "", OneUp(), 0)
  {
    assert Retained(map[], 0.0, c.retention) == map[];
  }

  lemma RacingDenied(c: Config)
    ensures Step(Raced(1, Unknown, "", OneUp(), 0), c, RacingRun()[2]) == Raced(1, Pending, "reconciled", OneUp(), 1)
    ensures Step(Raced(1, Pending, "reconciled", OneUp(), 1), c, RacingRun()[3])
      == Raced(2, Unknown, "reconciled", TwoUp(), 1)
    ensures !Idle(OneUp(), Key("a", ""))
  {
    assert OneUp().flights[0].key == Key("a", "");
  }

  /** Without the discipline the spacing fails, whatever the retention period and the capacity. */
  lemma RacingReconcileBreaksSpacing(c: Config)
    requires c.Valid()
    ensures Timed(0.0, RacingRun()) && !Apart(Run(START, c, RacingRun()).air.sends, c.retention)
  {
    var e := RacingRun();
    RacingBegins(c);
    RacingDenied(c);
    var s4 := Raced(2, Unknown, "reconciled", TwoUp(), 1);
    var s5 := Step(s4, c, e[4]);
    var s6 := Step(s5, c, e[5]);
    assert s6.air.sends[0] == Send(Key("a", ""), 0, 0.0, 1) == s6.air.sends[1];
    assert !FarApart(s6.air.sends, c.retention, 0, 1);
    assert e[4..][1..] == e[5..] && e[5..][1..] == [];
    assert Run(s4, c, e[4..]) == Run(s5, c, e[5..]) == s6;
    RunFour(START, Raced(0, Pending, "", START.air, 0), Raced(1, Unknown, "", OneUp(), 0),
      Raced(1, Pending, "reconciled", OneUp(), 1), s4, c, e);
  }

  lemma RunFour(s0: System, s1: System, s2: System, s3: System, s4: System, c: Config, e: seq<Event>)
    requires |e| >= 4 && Step(s0, c, e[0]) == s1 && Step(s1, c, e[1]) == s2 && Step(s2, c, e[2]) == s3
    requires Step(s3, c, e[3]) == s4
    ensures Run(s0, c, e) == Run(s4, c, e[4..])
  {
    assert e[1..][1..] == e[2..] && e[2..][1..] == e[3..] && e[3..][1..] == e[4..];
    assert Run(s0, c, e) == Run(s1, c, e[1..]) == Run(s2, c, e[2..]) == Run(s3, c, e[3..]) == Run(s4, c, e[4..]);
  }
}
