/** The notification outbox: its transactions, and the crash-safe delivery protocol over them. */
module NotificationOutbox {
  import opened Text

  datatype Key = Key(notificationId: string, channel: string)

  datatype DeliveryState = Pending | Sent | Unknown | Failed

  datatype Envelope = Envelope(
    notificationId: string, eventType: string, accountName: string, taskName: string, runId: string,
    payloadHash: string, aggregateStatus: string, attempt: nat, state: DeliveryState)

  datatype Row = Row(envelope: Envelope, attempt: nat, state: DeliveryState, errorCode: string, createdAt: real,
                     updatedAt: real)

  type Rows = map<Key, Row>

  /** `maxRecords` and `retention` as the constructor clamps them. */
  datatype Config = Config(maxRecords: nat, retention: real)
  {
    predicate Valid() { maxRecords >= 1 && retention >= 0.0 }
  }

  // ---------- the transactions ----------

  datatype EnqueueResult = Invalid | Existing(row: Row) | Full | Inserted

  predicate Acceptable(e: Envelope, channel: string)
  {
    && e.state.Pending? && e.attempt == 0
    && |e.notificationId| <= 256 && |channel| <= 256 && |e.eventType| <= 256 && |e.accountName| <= 256
    && |e.taskName| <= 256 && |e.runId| <= 256 && |e.payloadHash| <= 256 && |e.aggregateStatus| <= 256
  }

  /** What a receipt stores besides its state. */
  function Fields(e: Envelope, channel: string): seq<string>
  {
    [e.notificationId, channel, e.eventType, e.accountName, e.taskName, e.runId, e.payloadHash, e.aggregateStatus]
  }

  lemma AcceptableLaw(e: Envelope, channel: string)
    ensures Acceptable(e, channel)
      <==> e.state == Pending && e.attempt == 0 && forall f :: f in Fields(e, channel) ==> |f| < 257
  {
    var all := Fields(e, channel);
    assert forall i :: 0 <= i < 8 ==> all[i] in all;
  }

  predicate Expired(r: Row, now: real, retention: real)
  {
    (r.state.Sent? || r.state.Failed?) && r.updatedAt < now - retention
  }

  function Retained(rows: Rows, now: real, retention: real): Rows
  {
    map k | k in rows && !Expired(rows[k], now, retention) :: rows[k]
  }

  /** Insert a new receipt after dropping expired ones; at capacity the whole transaction is rolled back. */
  function Enqueued(rows: Rows, c: Config, e: Envelope, channel: string, now: real): (Rows, EnqueueResult)
  {
    var key := Key(e.notificationId, channel);
    if !Acceptable(e, channel) then (rows, Invalid)
    else if key in rows then (rows, Existing(rows[key]))
    else
      var kept := Retained(rows, now, c.retention);
      if |kept| >= c.maxRecords then (rows, Full)
      else (kept[key := Row(e, 0, Pending, "", now, now)], Inserted)
  }

  datatype ClaimResult = Missing | NotPending(state: DeliveryState) | Claimed

  /** The durable claim before a send: the state becomes unknown and the attempt is counted. */
  function ClaimedRows(rows: Rows, key: Key, now: real): (Rows, ClaimResult)
  {
    if key !in rows then (rows, Missing)
    else if !rows[key].state.Pending? then (rows, NotPending(rows[key].state))
    else (rows[key := rows[key].(state := Unknown, attempt := rows[key].attempt + 1, updatedAt := now)], Claimed)
  }

  datatype SendOutcome = Delivered | NotConnected(name: string) | HttpStatus(code: nat) | OtherError(name: string)

  function FinalState(o: SendOutcome): DeliveryState
  {
    match o
    case Delivered => Sent
    case NotConnected(_) => Failed
    case HttpStatus(code) => if code < 500 then Failed else Unknown
    case OtherError(_) => Unknown
  }

  /** The provider certainly did not take the request: it was never sent, or refused as wrong. */
  predicate NotTaken(o: SendOutcome)
  {
    o.NotConnected? || (o.HttpStatus? && o.code < 500)
  }

  /** Nobody knows whether the provider took the request; no outcome means that the delivery was cancelled. */
  predicate InDoubt(o: Option<SendOutcome>)
  {
    o.None? || (o.value != Delivered && !NotTaken(o.value))
  }

  function ErrorCode(o: SendOutcome): string
  {
    match o
    case Delivered => ""
    case NotConnected(name) => name
    case HttpStatus(code) => "HTTP_" + Digits(code)
    case OtherError(name) => name
  }

  function Digits(n: nat): string
  {
    if n < 10 then ["0123456789"[n]] else Digits(n / 10) + ["0123456789"[n % 10]]
  }

  /** The number that decimal digits stand for. */
  function Value(digits: string): int
  {
    if digits == "" then 0 else Value(digits[..|digits| - 1]) * 10 + (digits[|digits| - 1] as int - '0' as int)
  }

  lemma {:induction false} DigitsLaw(n: nat)
    ensures Digits(n) != "" && Value(Digits(n)) == n
    ensures forall i :: 0 <= i < |Digits(n)| ==> '0' <= Digits(n)[i] <= '9'
  {
    if n < 10 {
      assert Digits(n)[..0] == "";
    } else {
      DigitsLaw(n / 10);
      assert Digits(n)[..|Digits(n)| - 1] == Digits(n / 10);
    }
  }

  /** The error code tells the outcomes apart: nothing, the kind of the error, or the status in decimal digits. */
  lemma ErrorCodeLaw(o: SendOutcome)
    ensures o.Delivered? ==> ErrorCode(o) == ""
    ensures o.NotConnected? || o.OtherError? ==> ErrorCode(o) == o.name
    ensures o.HttpStatus? ==> "HTTP_" <= ErrorCode(o) && Value(ErrorCode(o)[5..]) == o.code
  {
    if o.HttpStatus? {
      DigitsLaw(o.code);
      assert ErrorCode(o)[5..] == Digits(o.code);
    }
  }

  /** The unconditional update after a send. */
  function RecordedRows(rows: Rows, key: Key, o: SendOutcome, now: real): Rows
  {
    if key in rows then rows[key := rows[key].(state := FinalState(o), errorCode := ErrorCode(o), updatedAt := now)]
      else rows
  }

  datatype ReconcileResult = Ambiguous | NoRow | Refused | Reconciled

  function Settled(r: Row, notDelivered: bool, now: real): Row
  {
    r.(state := if notDelivered then Pending else Sent, errorCode := "reconciled", updatedAt := now)
  }

  function ReconciledRows(rows: Rows, key: Key, notDelivered: bool, delivered: bool, now: real): (Rows, ReconcileResult)
  {
    if notDelivered == delivered then (rows, Ambiguous)
    else if key !in rows then (rows, NoRow)
    else if rows[key].state.Sent? && notDelivered then (rows, Refused)
    else (rows[key := Settled(rows[key], notDelivered, now)], Reconciled)
  }

  /** Sent means taken, failed means certainly not taken, and every doubtful outcome is unknown. */
  lemma FinalStateLaw(o: SendOutcome)
    ensures FinalState(o).Sent? <==> o == Delivered
    ensures FinalState(o).Failed? <==> NotTaken(o)
    ensures FinalState(o).Unknown? <==> InDoubt(Some(o))
  {
  }

  /** The final update settles the state and leaves the attempts alone; it never makes a receipt pending. */
  lemma RecordedLaw(rows: Rows, key: Key, o: SendOutcome, now: real)
    ensures var next := RecordedRows(rows, key, o, now);
      && next.Keys == rows.Keys
      && (forall k :: k in rows ==>
        next[k].attempt == rows[k].attempt && (next[k].state.Pending? ==> rows[k].state.Pending?))
      && (forall k :: k in rows && k != key ==> next[k] == rows[k])
  {
  }

  /**
   * The operator's word counts exactly if it is unambiguous, about a stored receipt, and does not deny a confirmed
   * send; then it decides that receipt's state.  Attempts never change, so a redelivery stays visible in the count.
   */
  lemma ReconciledLaw(rows: Rows, key: Key, notDelivered: bool, delivered: bool, now: real)
    ensures var (next, r) := ReconciledRows(rows, key, notDelivered, delivered, now);
      && (r.Reconciled? <==> notDelivered != delivered && key in rows && !(rows[key].state.Sent? && notDelivered))
      && (!r.Reconciled? ==> next == rows)
      && (r.Reconciled? ==> (next[key].state.Pending? <==> notDelivered) && (next[key].state.Sent? <==> delivered))
      && (r.Reconciled? ==> next[key].errorCode == "reconciled" && next[key].updatedAt == now)
      && (r.Reconciled? ==> next[key].envelope == rows[key].envelope)
      && next.Keys == rows.Keys
      && (forall k :: k in rows ==> next[k].attempt == rows[k].attempt && next[k].createdAt == rows[k].createdAt)
      && (forall k :: k in rows && k != key ==> next[k] == rows[k])
  {
  }

  /** A confirmed send is final: no operator can make the receipt pending again, however often one tries. */
  lemma SentIsFinal(rows: Rows, key: Key, notDelivered: bool, delivered: bool, now: real)
    requires key in rows && rows[key].state.Sent?
    ensures ReconciledRows(rows, key, notDelivered, delivered, now).0[key].state.Sent?
  {
  }

  /**
   * A receipt is stored exactly if it is acceptable, not stored already, and there is room; it starts pending and
   * unattempted.  Retention is bounded, and only settled receipts that outlived it are dropped, never unresolved ones.
   */
  lemma EnqueueBounded(rows: Rows, c: Config, e: Envelope, channel: string, now: real)
    requires c.Valid() && |rows| <= c.maxRecords
    ensures var next := Enqueued(rows, c, e, channel, now).0;
      && |next| <= c.maxRecords
      && (forall k :: k in rows && (rows[k].state.Pending? || rows[k].state.Unknown?) ==>
        k in next && next[k] == rows[k])
      && (forall k :: k in next && k in rows ==> next[k] == rows[k])
      && (forall k :: k in rows && k !in next ==>
            rows[k].state in {Sent, Failed} && rows[k].updatedAt + c.retention < now)
    ensures var (next, r) := Enqueued(rows, c, e, channel, now);
      var key := Key(e.notificationId, channel);
      && (r.Invalid? <==> !Acceptable(e, channel))
      && (r.Existing? ==> key in rows && r.row == rows[key])
      && (r.Inserted? ==> key !in rows && next.Keys <= rows.Keys + {key} && key in next
                          && next[key] == Row(e, 0, Pending, "", now, now))
      && (r.Inserted? ==> forall k :: k in next && k in rows && rows[k].state in {Sent, Failed} ==>
            now <= rows[k].updatedAt + c.retention)
      && (!r.Inserted? ==> next == rows)
      && (r.Full? ==> key !in rows && |Retained(rows, now, c.retention)| >= c.maxRecords)
  {
    var key := Key(e.notificationId, channel);
    var kept := Retained(rows, now, c.retention);
    if key !in rows && |kept| < c.maxRecords {
      assert |kept[key := Row(e, 0, Pending, "", now, now)]| == |kept| + 1;
    }
  }

  class Outbox {
    var rows: Rows
    const config: Config

    constructor (maxRecords: int, retention: real)
      ensures rows == map[] && config.Valid()
      ensures config.maxRecords == (if maxRecords > 1 then maxRecords else 1)
      ensures config.retention == (if retention > 0.0 then retention else 0.0)
    {
      rows := map[];
      config := Config(if maxRecords > 1 then maxRecords else 1, if retention > 0.0 then retention else 0.0);
    }

    method Enqueue(e: Envelope, channel: string, now: real) returns (r: EnqueueResult)
      modifies this
      ensures (rows, r) == Enqueued(old(rows), config, e, channel, now)
    {
      if !Acceptable(e, channel) { return Invalid; }
      var key := Key(e.notificationId, channel);
      if key in rows { return Existing(rows[key]); }
      var kept := Retained(rows, now, config.retention);
      if |kept| >= config.maxRecords { return Full; }
      rows := kept[key := Row(e, 0, Pending, "", now, now)];
      r := Inserted;
    }

    /** The first transaction of a delivery. */
    method Claim(key: Key, now: real) returns (r: ClaimResult)
      modifies this
      ensures (rows, r) == ClaimedRows(old(rows), key, now)
    {
      if key !in rows { return Missing; }
      if !rows[key].state.Pending? { return NotPending(rows[key].state); }
      rows := rows[key := rows[key].(state := Unknown, attempt := rows[key].attempt + 1, updatedAt := now)];
      r := Claimed;
    }

    /** The last transaction of a delivery. */
    method Record(key: Key, o: SendOutcome, now: real)
      modifies this
      ensures rows == RecordedRows(old(rows), key, o, now)
    {
      if key in rows {
        rows := rows[key := rows[key].(state := FinalState(o), errorCode := ErrorCode(o), updatedAt := now)];
      }
    }

    method Reconcile(key: Key, notDelivered: bool, delivered: bool, now: real) returns (r: ReconcileResult)
      modifies this
      ensures (rows, r) == ReconciledRows(old(rows), key, notDelivered, delivered, now)
    {
      if notDelivered == delivered { return Ambiguous; }
      if key !in rows { return NoRow; }
      if rows[key].state.Sent? && notDelivered { return Refused; }
      rows := rows[key := Settled(rows[key], notDelivered, now)];
      r := Reconciled;
    }

    /** An undisturbed delivery: `sends` says how often the sender was invoked; no outcome means it was cancelled. */
    method Deliver(key: Key, outcome: Option<SendOutcome>, claimAt: real, recordAt: real)
      returns (state: Option<DeliveryState>, sends: nat)
      modifies this
      ensures sends == (if key in old(rows) && old(rows)[key].state.Pending? then 1 else 0)
      ensures sends == 0 ==> rows == old(rows) && state == (if key in rows then Some(rows[key].state) else None)
      ensures sends == 1 ==> key in rows && rows == old(rows)[key := rows[key]]
      ensures sends == 1 ==> rows[key].attempt == old(rows)[key].attempt + 1
      // sent means taken, failed means certainly not taken, and whatever is in doubt stays unknown
      ensures sends == 1 ==> (rows[key].state.Sent? <==> outcome == Some(Delivered))
      ensures sends == 1 ==> (rows[key].state.Failed? <==> outcome.Some? && NotTaken(outcome.value))
      ensures sends == 1 ==> (rows[key].state.Unknown? <==> InDoubt(outcome))
      ensures sends == 1 ==> rows[key].updatedAt == if outcome.Some? then recordAt else claimAt
      ensures sends == 1 ==>
        rows[key].errorCode == if outcome.Some? then ErrorCode(outcome.value) else old(rows)[key].errorCode
      ensures sends == 1 ==> rows[key].envelope == old(rows)[key].envelope
      ensures sends == 1 ==> rows[key].createdAt == old(rows)[key].createdAt
      ensures sends == 1 ==> state == if outcome.Some? then Some(rows[key].state) else None
    {
      sends := 0;
      var claim := Claim(key, claimAt);
      match claim {
        case Missing => return None, 0;
        case NotPending(s) => return Some(s), 0;
        case Claimed =>
      }
      sends := 1;
      if outcome.None? { return None, 1; }
      Record(key, outcome.value, recordAt);
      state := Some(FinalState(outcome.value));
    }
  }
}
