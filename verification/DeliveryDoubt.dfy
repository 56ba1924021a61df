/** A receipt whose send may have been taken by the provider is kept until somebody says what became of it. */
module DeliveryDoubt {
  import opened Text
  import opened NotificationOutbox
  import opened DeliveryProtocol
  import opened DeliverySpacing

  /** No reconciliation of the receipt takes effect. */
  ghost predicate Unreconciled(s: System, c: Config, events: seq<Event>, key: Key)
    decreases |events|
  {
    events != [] ==>
      && !(Reconciles(s.table, events[0]) && events[0].key == key)
      && Unreconciled(Step(s, c, events[0]), c, events[1..], key)
  }

  /** The receipt is unknown, and nobody is delivering it. */
  predicate Doubtful(t: Table, a: Air, key: Key)
  {
    key in t.rows && key in t.ids && t.rows[key].state.Unknown? && Idle(a, key)
  }

  /** The receipt is stored as it was, in the same row. */
  predicate Kept(t: Table, u: Table, key: Key)
    requires key in t.rows && key in t.ids
  {
    key in u.rows && key in u.ids && u.rows[key] == t.rows[key] && u.ids[key] == t.ids[key]
  }

  lemma EnqueueKeepsDoubt(t: Table, c: Config, a: Air, e: Envelope, channel: string, now: real, key: Key)
    requires TableOk(t, c) && Doubtful(t, a, key)
    ensures var u := EnqueueIn(t, c, e, channel, now); Doubtful(u, a, key) && Kept(t, u, key)
  {
    EnqueueKeeps(t, c, e, channel, now);
  }

  lemma StepKeepsDoubt(s: System, c: Config, e: Event, key: Key)
    requires Sound(s, c) && Doubtful(s.table, s.air, key) && !(Reconciles(s.table, e) && e.key == key)
    ensures var t := Step(s, c, e); Doubtful(t.table, t.air, key) && Kept(s.table, t.table, key)
  {
    match e
    case Enqueue(env, channel, now) => EnqueueKeepsDoubt(s.table, c, s.air, env, channel, now, key);
    case Claim(k, now) =>
    case Invoke(p, now) =>
    case Finish(p, outcome, now) =>
    case Die(p) =>
    case Reconcile(k, notDelivered, delivered, now) => ReconciledLaw(s.table.rows, k, notDelivered, delivered, now);
  }

  /** It stays so, whatever happens, until it is reconciled. */
  lemma {:induction false} DoubtStays(s: System, c: Config, events: seq<Event>, key: Key)
    requires Sound(s, c) && c.Valid() && Doubtful(s.table, s.air, key) && Unreconciled(s, c, events, key)
    ensures var t := Run(s, c, events); Doubtful(t.table, t.air, key) && Kept(s.table, t.table, key)
    decreases |events|
  {
    if events != [] {
      StepKeepsDoubt(s, c, events[0], key);
      StepSound(s, c, events[0]);
      DoubtStays(Step(s, c, events[0]), c, events[1..], key);
    }
  }

  /** The end of a delivery that leaves open whether the provider took the request. */
  predicate EndsInDoubt(e: Event, f: nat)
  {
    (e.Finish? && e.flight == f && InDoubt(Some(e.outcome))) || e == Die(f)
  }

  /** The delivery still works on the receipt that is stored under its key. */
  predicate Current(t: Table, a: Air, f: nat)
  {
    && f in a.flights && a.flights[f].key in t.rows && a.flights[f].key in t.ids
    && t.rows[a.flights[f].key].state.Unknown?
  }

  lemma EndInDoubt(s: System, c: Config, f: nat, e: Event)
    requires Sound(s, c) && Current(s.table, s.air, f) && EndsInDoubt(e, f) && (e.Finish? ==> s.air.flights[f].sent)
    ensures var key, t := s.air.flights[f].key, Step(s, c, e);
      && key in t.table.rows && key in t.table.ids && t.table.rows[key].state.Unknown?
      && t.air.flights == s.air.flights - {f}
  {
  }

  lemma Expelled(s: System, c: Config, key: Key, q: nat, other: Key, late: real)
    requires Sound(s, c) && c.Valid() && q in s.air.flights && s.air.flights[q].sent && s.air.flights[q].key == key
    requires key in s.table.rows && Fits(other) && other != key && other !in s.table.rows
    requires late > s.clock + c.retention
    ensures var t := Step(s, c, Finish(q, HttpStatus(404), s.clock));
      key !in Step(t, c, Offer(other, late)).table.rows
  {
    var t := Step(s, c, Finish(q, HttpStatus(404), s.clock));
    StepSound(s, c, Finish(q, HttpStatus(404), s.clock));
    OfferInserts(t.table, c, other, key, late);
  }

  /** Another delivery of the receipt can be refused, and then the receipt is dropped when its retention is over. */
  lemma Overruled(s: System, c: Config, key: Key, q: nat, other: Key) returns (events: seq<Event>)
    requires Sound(s, c) && c.Valid() && q in s.air.flights && s.air.flights[q].key == key
    requires key in s.table.rows && Fits(other) && other != key && other !in s.table.rows
    ensures Timed(s.clock, events) && Unreconciled(s, c, events, key) && key !in Run(s, c, events).table.rows
  {
    var late := s.clock + c.retention + 1.0;
    var refused, offer := Finish(q, HttpStatus(404), s.clock), Offer(other, late);
    var u := s;
    if !s.air.flights[q].sent {
      u := Step(s, c, Invoke(q, s.clock));
      StepSound(s, c, Invoke(q, s.clock));
    }
    Expelled(u, c, key, q, other, late);
    var v := Step(u, c, refused);
    events := [refused, offer];
    assert events[1..] == [offer] && [offer][1..] == [];
    assert Run(u, c, events) == Run(v, c, [offer]) == Step(v, c, offer);
    assert Timed(late, []) && Timed(s.clock, [offer]) && Timed(s.clock, events);
    assert Unreconciled(Step(v, c, offer), c, [], key) && Unreconciled(v, c, [offer], key);
    assert Unreconciled(u, c, events, key);
    if !s.air.flights[q].sent {
      var all := [Invoke(q, s.clock)] + events;
      assert all[1..] == events;
      events := all;
    }
  }

  /**
   * After a delivery ends in doubt, its receipt is kept, unknown, through everything that may follow short of a
   * reconciliation, exactly if nobody else is delivering it; given one more receipt to offer.
   */
  lemma DoubtKeptExactly(s: System, c: Config, f: nat, e: Event, other: Key)
    requires Sound(s, c) && c.Valid() && Current(s.table, s.air, f) && EndsInDoubt(e, f)
    requires e.Finish? ==> s.air.flights[f].sent
    requires Fits(other) && other != s.air.flights[f].key && other !in s.table.rows
    ensures var key, t := s.air.flights[f].key, Step(s, c, e);
      key in t.table.rows && key in t.table.ids && t.table.rows[key].state.Unknown?
    ensures var key, t := s.air.flights[f].key, Step(s, c, e);
      (forall p :: p in s.air.flights && s.air.flights[p].key == key ==> p == f) <==>
        forall events :: Timed(t.clock, events) && Unreconciled(t, c, events, key) ==>
          Kept(t.table, Run(t, c, events).table, key)
  {
    var key, t := s.air.flights[f].key, Step(s, c, e);
    EndInDoubt(s, c, f, e);
    StepSound(s, c, e);
    if forall p :: p in s.air.flights && s.air.flights[p].key == key ==> p == f {
      forall events | Timed(t.clock, events) && Unreconciled(t, c, events, key)
        ensures Kept(t.table, Run(t, c, events).table, key)
      {
        DoubtStays(t, c, events, key);
      }
    } else {
      var q :| q in s.air.flights && s.air.flights[q].key == key && q != f;
      var events := Overruled(t, c, key, q, other);
    }
  }

  /** If only idle receipts are reconciled, no doubtful receipt is ever dropped before it is reconciled. */
  lemma DoubtKept(c: Config, before: seq<Event>, f: nat, e: Event, after: seq<Event>)
    requires c.Valid() && Timed(0.0, before) && Quiet(START, c, before)
    requires f in Run(START, c, before).air.flights && EndsInDoubt(e, f)
    requires e.Finish? ==> Run(START, c, before).air.flights[f].sent
    requires Unreconciled(Step(Run(START, c, before), c, e), c, after, Run(START, c, before).air.flights[f].key)
    ensures var s := Run(START, c, before);
      var t := Run(Step(s, c, e), c, after);
      var key := s.air.flights[f].key;
      key in t.table.rows && key in t.table.ids && t.table.rows[key].state.Unknown?
        && t.table.ids[key] == s.air.flights[f].row
  {
    StartSound(c);
    RunSpacious(START, c, before);
    var s := Run(START, c, before);
    var key := s.air.flights[f].key;
    assert Live(s.table, s.air, f);
    EndInDoubt(s, c, f, e);
    StepSound(s, c, e);
    DoubtStays(Step(s, c, e), c, after, key);
  }
}
