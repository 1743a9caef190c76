/** The webhook delivery engine: classification of responses, the attempt budget, and every
    entry point that moves a delivery between its states. */
module Webhooks {
  import opened Common
  import opened Iso

  type Id = int

  datatype Status = Pending | Retrying | Success | DeadLetter | Failed

  datatype Event = SlaViolation | SlaWarning | SlaResolved

  /** The joined webhook row; its id is the printed UUID. */
  datatype Webhook = Webhook(id: string, maxRetries: int)

  /** The parts of a payload that a context replay looks at. */
  datatype Context = Unreadable | Context(device: Option<string>, outage: Option<string>)

  datatype Delivery = Delivery(
    webhook: Webhook, event: Event, eventTimestamp: Stamp, key: string, context: Context,
    status: Status, attempts: nat, nextRetryAt: Option<int>, code: Option<int>,
    deliveredAt: Option<int>, deadLetteredAt: Option<int>)

  /** What one POST brings back, and when. */
  datatype Outcome = Response(code: int) | NetworkError
  datatype Reply = Reply(outcome: Outcome, at: int)

  datatype Config = Config(delays: seq<int>, cap: int)

  /** A delivery row together with the times at which it was posted to its endpoint. */
  datatype Tracked = Tracked(row: Delivery, posts: seq<int>)

  type Table = map<Id, Tracked>

  // ---------------------------------------------------------------------------
  // Status classification
  // ---------------------------------------------------------------------------

  datatype Class = Terminal | Retryable

  predicate RetryableStatusCode(code: int) {
    code in {500, 502, 503, 504}
  }

  predicate TerminalStatusCode(code: int) {
    SuccessCode(code) || RedirectionCode(code) || ClientErrorCode(code) || LateClientErrorCode(code)
  }

  predicate SuccessCode(code: int) {
    code in {200, 201, 202, 203, 204, 205, 206, 207, 208, 226}
  }

  predicate RedirectionCode(code: int) {
    code in {300, 301, 302, 303, 304, 305, 306, 307, 308}
  }

  predicate ClientErrorCode(code: int) {
    code in {400, 401, 402, 403, 404, 405, 406, 407, 408, 409, 410, 411, 412, 413}
  }

  predicate LateClientErrorCode(code: int) {
    code in {414, 415, 416, 417, 418, 421, 422, 423, 424, 425, 426, 428, 429, 431, 451}
  }

  function Classify(code: int): Class {
    if RetryableStatusCode(code) then Retryable
    else if TerminalStatusCode(code) then Terminal
    else if 500 <= code < 600 then Retryable
    else Terminal
  }

  lemma ClientErrorsAreBelow500(code: int)
    requires ClientErrorCode(code) || LateClientErrorCode(code)
    ensures code < 500
  {
  }

  /** The two tables and the fallback come to one rule: only the 5xx class is retried. */
  lemma ClassifyIsServerError(code: int)
    ensures Classify(code) == Retryable <==> 500 <= code < 600
  {
    hide ClientErrorCode, LateClientErrorCode;
    if ClientErrorCode(code) || LateClientErrorCode(code) { ClientErrorsAreBelow500(code); }
  }

  // ---------------------------------------------------------------------------
  // Idempotency key
  // ---------------------------------------------------------------------------

  function EventValue(e: Event): string {
    match e
    case SlaViolation => "sla.violation"
    case SlaWarning => "sla.warning"
    case SlaResolved => "sla.resolved"
  }

  /** The text that is hashed; the digest itself is taken to be injective. */
  function Key(webhook: string, event: Event, timestamp: string): string {
    webhook + ":" + EventValue(event) + ":" + timestamp
  }

  /** The key text of each event, letter by letter. */
  lemma KeyTexts(w: string, t: string)
    ensures Key(w, SlaViolation, t) == w + ":sla.violation:" + t
    ensures Key(w, SlaWarning, t) == w + ":sla.warning:" + t
    ensures Key(w, SlaResolved, t) == w + ":sla.resolved:" + t
  {
    assert ":" + EventValue(SlaViolation) + ":" == ":sla.violation:";
    assert ":" + EventValue(SlaWarning) + ":" == ":sla.warning:";
    assert ":" + EventValue(SlaResolved) + ":" == ":sla.resolved:";
    forall e: Event ensures Key(w, e, t) == w + (":" + EventValue(e) + ":") + t {}
  }

  lemma {:induction false} FirstColon(a: string, b: string, c: string, d: string)
    requires ':' !in a && ':' !in c && a + ":" + b == c + ":" + d
    ensures a == c && b == d
  {
    var s, t := a + ":" + b, c + ":" + d;
    assert forall i :: 0 <= i < |a| ==> s[i] == a[i];
    assert forall i :: 0 <= i < |c| ==> t[i] == c[i];
    assert s[|a|] == ':' && t[|c|] == ':';
    assert |a| == |c|;
    assert a == s[..|a|] && c == t[..|c|];
    assert b == s[|a| + 1..] && d == t[|c| + 1..];
  }

  /** Different (webhook, event, timestamp) triples never share a key; a printed UUID has no colon. */
  lemma KeyInjective(w: string, e: Event, t: string, w': string, e': Event, t': string)
    requires ':' !in w && ':' !in w' && Key(w, e, t) == Key(w', e', t')
    ensures w == w' && e == e' && t == t'
  {
    hide EventValue;
    EventValueHasNoColon(e);
    EventValueHasNoColon(e');
    assert Key(w, e, t) == w + ":" + (EventValue(e) + ":" + t);
    assert Key(w', e', t') == w' + ":" + (EventValue(e') + ":" + t');
    FirstColon(w, EventValue(e) + ":" + t, w', EventValue(e') + ":" + t');
    FirstColon(EventValue(e), t, EventValue(e'), t');
    EventValueInjective(e, e');
  }

  lemma EventValueInjective(e: Event, e': Event)
    requires EventValue(e) == EventValue(e')
    ensures e == e'
  {
    assert |EventValue(SlaViolation)| == 13 && |EventValue(SlaWarning)| == 11 && |EventValue(SlaResolved)| == 12;
  }

  lemma EventValueHasNoColon(e: Event)
    ensures ':' !in EventValue(e)
  {
  }

  // ---------------------------------------------------------------------------
  // One dispatch
  // ---------------------------------------------------------------------------

  function Pow2(n: nat): nat {
    if n == 0 then 1 else 2 * Pow2(n - 1)
  }

  /** The back-off before retry number i: doubled base delay, never above the cap. */
  function Delay(cfg: Config, i: nat): int
    requires i < |cfg.delays|
  {
    Min(cfg.delays[i] * Pow2(i), cfg.cap)
  }

  /** Back-off is exponential: each further retry doubles the factor. */
  lemma {:induction false} FactorDoubles(i: nat, j: nat)
    ensures Pow2(0) == 1 && Pow2(i + 1) == 2 * Pow2(i) && Pow2(i + j) == Pow2(i) * Pow2(j)
  {
    if j > 0 { FactorDoubles(i, j - 1); }
  }

  /** The schedule that the default settings give: 30 seconds, 4 minutes, 40 minutes, and
      nothing above an hour whatever the delays. */
  lemma DefaultSchedule(delays: seq<int>, i: nat)
    requires i < |delays|
    ensures var cfg := Config([30, 120, 600], 3600);
            Delay(cfg, 0) == 30 && Delay(cfg, 1) == 240 && Delay(cfg, 2) == 2400
    ensures Delay(Config(delays, 3600), i) <= 3600
  {
    assert Pow2(1) == 2 && Pow2(2) == 4;
  }

  function MaxRetries(w: Webhook): int {
    if w.maxRetries == 0 then 3 else w.maxRetries
  }

  /** How many retries a delivery may be scheduled for. */
  function Budget(cfg: Config, w: Webhook): int {
    Min(MaxRetries(w), |cfg.delays|)
  }

  predicate Succeeds(o: Outcome) {
    o.Response? && Classify(o.code) == Terminal && 200 <= o.code < 300
  }

  /** The response code column after the attempt: a network error leaves the old value there. */
  function CodeAfter(d: Delivery, o: Outcome): Option<int> {
    match o
    case Response(c) => Some(c)
    case NetworkError => d.code
  }

  predicate TerminalCode(code: Option<int>) {
    code.Some? && code.value != 0 && Classify(code.value) == Terminal
  }

  function Buried(d: Delivery, at: int): Delivery {
    d.(status := DeadLetter, deadLetteredAt := Some(at), nextRetryAt := None)
  }

  /** dispatch_delivery on one row. */
  function Dispatched(cfg: Config, d: Delivery, r: Reply): Delivery {
    var i := d.attempts;
    var d := d.(attempts := d.attempts + 1, code := CodeAfter(d, r.outcome));
    if Succeeds(r.outcome) then d.(status := Success, deliveredAt := Some(r.at), nextRetryAt := None)
    else if TerminalCode(d.code) then Buried(d, r.at)
    else if i < MaxRetries(d.webhook) && i < |cfg.delays| then
      d.(status := Retrying, nextRetryAt := Some(r.at + Delay(cfg, i)))
    else Buried(d, r.at)
  }

  function Post(cfg: Config, t: Tracked, r: Reply): Tracked {
    Tracked(Dispatched(cfg, t.row, r), t.posts + [r.at])
  }

  /** When a dispatch ends in which state: a 2xx response is a success; anything else is
      retried only while the budget lasts and the last code seen is absent, zero or 5xx. */
  lemma DispatchVerdict(cfg: Config, d: Delivery, r: Reply)
    ensures var e := Dispatched(cfg, d, r);
            var code := if r.outcome.Response? then Some(r.outcome.code) else d.code;
            && (e.status == Success <==> r.outcome.Response? && 200 <= r.outcome.code < 300)
            && (e.status == Retrying <==>
                  && e.status != Success
                  && e.attempts <= Budget(cfg, d.webhook)
                  && e.attempts <= |cfg.delays|
                  && e.attempts <= (if d.webhook.maxRetries == 0 then 3 else d.webhook.maxRetries)
                  && (code.None? || code.value == 0 || 500 <= code.value < 600))
            && (e.status == DeadLetter <==> e.status != Success && e.status != Retrying)
            && e.attempts == d.attempts + 1 && e.code == code
            && (e.status == Success ==> e.deliveredAt == Some(r.at) && e.nextRetryAt == None)
            && (e.status != Success ==> e.deliveredAt == d.deliveredAt)
            && (e.status == DeadLetter ==> e.deadLetteredAt == Some(r.at) && e.nextRetryAt == None)
            && (e.status != DeadLetter ==> e.deadLetteredAt == d.deadLetteredAt)
            && (e.status == Retrying ==>
                  && 1 <= e.attempts <= |cfg.delays|
                  && e.nextRetryAt == Some(r.at + Min(cfg.delays[e.attempts - 1] * Pow2(e.attempts - 1), cfg.cap)))
            && e.key == d.key && e.eventTimestamp == d.eventTimestamp && e.webhook == d.webhook && e.event == d.event
            && e.context == d.context
  {
    ClassifyIsServerError(if r.outcome.Response? then r.outcome.code else if d.code.Some? then d.code.value else 0);
  }

  // ---------------------------------------------------------------------------
  // Entry points, as transformations of the delivery table
  // ---------------------------------------------------------------------------

  function Fresh(w: Webhook, e: Event, stamp: Stamp, ctx: Context): Delivery {
    Delivery(w, e, stamp, Key(w.id, e, IsoFormat(stamp)), ctx, Pending, 0, None, None, None, None)
  }

  predicate KeyTaken(tab: Table, key: string) {
    exists id :: id in tab && tab[id].row.key == key
  }

  /** create_delivery: the unique key makes a second delivery of the same event fail. */
  function Create(tab: Table, id: Id, d: Delivery): Table {
    if id in tab || KeyTaken(tab, d.key) then tab else tab[id := Tracked(d, [])]
  }

  /** trigger_sla_violation_webhooks for one webhook that passed the URL and backpressure checks. */
  function Trigger(cfg: Config, tab: Table, id: Id, d: Delivery, schemaOk: bool, r: Reply): Table {
    if id in tab || KeyTaken(tab, d.key) then tab
    else tab[id := if schemaOk then Post(cfg, Tracked(d, []), r)
                   else Tracked(d.(status := DeadLetter, deadLetteredAt := Some(r.at)), [])]
  }

  predicate Due(d: Delivery, now: int) {
    d.status == Retrying && d.nextRetryAt.Some? && d.nextRetryAt.value <= now
  }

  function Swept(cfg: Config, t: Tracked, now: int, r: Reply): Tracked {
    if Due(t.row, now) then Post(cfg, t, r) else t
  }

  /** retry_pending_deliveries */
  function Sweep(cfg: Config, tab: Table, now: int, net: Id -> Reply): Table {
    map id | id in tab :: Swept(cfg, tab[id], now, net(id))
  }

  function Reset(d: Delivery): Delivery {
    d.(status := Pending, attempts := 0, nextRetryAt := None, deadLetteredAt := None, code := None, deliveredAt := None)
  }

  function Replayed(cfg: Config, t: Tracked, r: Reply): Tracked {
    if t.row.status == DeadLetter then Post(cfg, t.(row := Reset(t.row)), r) else t
  }

  /** replay_dead_letter_delivery on each of a set of deliveries. */
  function ReplaySet(cfg: Config, tab: Table, ids: set<Id>, net: Id -> Reply): Table {
    map id | id in tab :: if id in ids then Replayed(cfg, tab[id], net(id)) else tab[id]
  }

  /** recover_deliveries_in_window's treatment of each of a set of candidates. */
  function RecoverSet(cfg: Config, tab: Table, ids: set<Id>, net: Id -> Reply): Table {
    map id | id in tab :: if id in ids then Recovered(cfg, tab[id], net(id)) else tab[id]
  }

  function PostSet(cfg: Config, tab: Table, ids: set<Id>, net: Id -> Reply): Table {
    map id | id in tab :: if id in ids then Post(cfg, tab[id], net(id)) else tab[id]
  }

  /** The filter of replay_deliveries_by_event_context. */
  predicate InContext(d: Delivery, e: Event, device: Option<string>, outage: Option<string>) {
    && d.status == DeadLetter && d.event == e
    && (Given(device) || Given(outage) ==>
          && d.context.Context?
          && ((Given(device) && d.context.device == device) || (Given(outage) && d.context.outage == outage)))
  }

  predicate Given(s: Option<string>) {
    s.Some? && s.value != ""
  }

  predicate InWindow(d: Delivery, lo: Stamp, hi: Stamp) {
    lo.Ticks() <= d.eventTimestamp.Ticks() <= hi.Ticks()
  }

  function Recovered(cfg: Config, t: Tracked, r: Reply): Tracked {
    if t.row.status == Success then t
    else if t.row.status == DeadLetter then Replayed(cfg, t, r)
    else Post(cfg, t.(row := t.row.(status := Pending, nextRetryAt := None, deadLetteredAt := None)), r)
  }

  /** recover_deliveries_in_window */
  function Recover(cfg: Config, tab: Table, lo: Stamp, hi: Stamp, net: Id -> Reply): Table {
    map id | id in tab :: if InWindow(tab[id].row, lo, hi) then Recovered(cfg, tab[id], net(id)) else tab[id]
  }

  /** The manual retry endpoint: refused once the delivery has succeeded. */
  function ManualRetry(cfg: Config, tab: Table, webhook: string, id: Id, r: Reply): Table {
    if id in tab && tab[id].row.webhook.id == webhook && tab[id].row.status != Success
    then tab[id := Post(cfg, tab[id], r)] else tab
  }

  /** dispatch_delivery called by a queued task: no guard on the state of the delivery. */
  function BareDispatch(cfg: Config, tab: Table, id: Id, r: Reply): Table {
    if id in tab then tab[id := Post(cfg, tab[id], r)] else tab
  }

  // ---------------------------------------------------------------------------
  // Runs
  // ---------------------------------------------------------------------------

  datatype Op =
    | CreateOp(id: Id, w: Webhook, e: Event, stamp: Stamp, ctx: Context)
    | TriggerOp(id: Id, w: Webhook, e: Event, stamp: Stamp, ctx: Context, schemaOk: bool, r: Reply)
    | SweepOp(now: int, net: Id -> Reply)
    | ReplayOp(ids: set<Id>, net: Id -> Reply)
    | RecoverOp(lo: Stamp, hi: Stamp, net: Id -> Reply)
    | ManualOp(webhook: string, id: Id, r: Reply)
    | DispatchOp(id: Id, r: Reply)

  function Step(cfg: Config, tab: Table, op: Op): Table {
    match op
    case CreateOp(id, w, e, stamp, ctx) => Create(tab, id, Fresh(w, e, stamp, ctx))
    case TriggerOp(id, w, e, stamp, ctx, ok, r) => Trigger(cfg, tab, id, Fresh(w, e, stamp, ctx), ok, r)
    case SweepOp(now, net) => Sweep(cfg, tab, now, net)
    case ReplayOp(ids, net) => ReplaySet(cfg, tab, ids, net)
    case RecoverOp(lo, hi, net) => Recover(cfg, tab, lo, hi, net)
    case ManualOp(w, id, r) => ManualRetry(cfg, tab, w, id, r)
    case DispatchOp(id, r) => BareDispatch(cfg, tab, id, r)
  }

  function Run(cfg: Config, tab: Table, ops: seq<Op>): Table {
    if ops == [] then tab else Step(cfg, Run(cfg, tab, ops[..|ops| - 1]), ops[|ops| - 1])
  }

  /** What every delivery row satisfies between operations. */
  predicate RowOk(cfg: Config, d: Delivery) {
    && d.status != Failed
    && (d.status == Pending ==> d.attempts == 0 && d.nextRetryAt.None? && d.code.None?)
    && (d.status == Retrying ==>
          d.nextRetryAt.Some? && 1 <= d.attempts <= Budget(cfg, d.webhook) && !TerminalCode(d.code))
    && (d.status == Success ==> d.deliveredAt.Some? && d.nextRetryAt.None?)
    && (d.status == DeadLetter ==> d.deadLetteredAt.Some? && d.nextRetryAt.None?)
    && d.key == Key(d.webhook.id, d.event, IsoFormat(d.eventTimestamp))
  }

  predicate TableOk(cfg: Config, tab: Table) {
    (forall id :: id in tab ==> RowOk(cfg, tab[id].row)) && KeysUnique(tab)
  }

  predicate KeysUnique(tab: Table) {
    forall i, j :: i in tab && j in tab && i != j ==> tab[i].row.key != tab[j].row.key
  }

  lemma DispatchKeepsRowOk(cfg: Config, d: Delivery, r: Reply)
    requires d.key == Key(d.webhook.id, d.event, IsoFormat(d.eventTimestamp))
    ensures RowOk(cfg, Dispatched(cfg, d, r)) && Dispatched(cfg, d, r).status != Pending
    ensures Dispatched(cfg, d, r).key == d.key
  {
    DispatchVerdict(cfg, d, r);
  }

  /** The effect of an operation on a delivery that is already in the table. */
  function Moved(cfg: Config, op: Op, id: Id, t: Tracked): Tracked {
    match op
    case CreateOp(_, _, _, _, _) => t
    case TriggerOp(_, _, _, _, _, _, _) => t
    case SweepOp(now, net) => Swept(cfg, t, now, net(id))
    case ReplayOp(ids, net) => if id in ids then Replayed(cfg, t, net(id)) else t
    case RecoverOp(lo, hi, net) => if InWindow(t.row, lo, hi) then Recovered(cfg, t, net(id)) else t
    case ManualOp(w, i, r) => if i == id && t.row.webhook.id == w && t.row.status != Success then Post(cfg, t, r) else t
    case DispatchOp(i, r) => if i == id then Post(cfg, t, r) else t
  }

  predicate Inserts(tab: Table, op: Op) {
    (op.CreateOp? || op.TriggerOp?) && op.id !in tab && !KeyTaken(tab, Fresh(op.w, op.e, op.stamp, op.ctx).key)
  }

  /** The row that an inserting operation adds. */
  function Added(cfg: Config, op: Op): Tracked
    requires op.CreateOp? || op.TriggerOp?
  {
    var t := Tracked(Fresh(op.w, op.e, op.stamp, op.ctx), []);
    if op.CreateOp? then t
    else if op.schemaOk then Post(cfg, t, op.r)
    else t.(row := t.row.(status := DeadLetter, deadLetteredAt := Some(op.r.at)))
  }

  /** An operation treats every delivery on its own, and inserts at most one. */
  lemma StepIsPointwise(cfg: Config, tab: Table, op: Op)
    ensures var tab' := Step(cfg, tab, op);
            && tab'.Keys == tab.Keys + (if Inserts(tab, op) then {op.id} else {})
            && (forall id :: id in tab ==> tab'[id] == Moved(cfg, op, id, tab[id]))
            && (Inserts(tab, op) ==> tab'[op.id] == Added(cfg, op))
  {
    hide Post, Swept, Replayed, Recovered, Fresh, KeyTaken;
  }

  // ---------------------------------------------------------------------------
  // What the entry points do, said on the columns of the rows
  // ---------------------------------------------------------------------------

  /** The reply that an operation gets for a delivery, if it posts that delivery at all. */
  function ReplyTo(op: Op, id: Id, t: Tracked): Option<Reply> {
    match op
    case CreateOp(_, _, _, _, _) => None
    case TriggerOp(_, _, _, _, _, _, _) => None
    case SweepOp(now, net) =>
      if t.row.status == Retrying && t.row.nextRetryAt.Some? && t.row.nextRetryAt.value <= now
      then Some(net(id)) else None
    case ReplayOp(ids, net) => if id in ids && t.row.status == DeadLetter then Some(net(id)) else None
    case RecoverOp(lo, hi, net) =>
      if !Earlier(t.row.eventTimestamp, lo) && !Earlier(hi, t.row.eventTimestamp) && t.row.status != Success
      then Some(net(id)) else None
    case ManualOp(w, i, r) => if i == id && t.row.webhook.id == w && t.row.status != Success then Some(r) else None
    case DispatchOp(i, r) => if i == id then Some(r) else None
  }

  /** An operation posts exactly the deliveries that it is for, once each, and leaves every
      other delivery as it was. */
  lemma StepPosts(cfg: Config, tab: Table, op: Op, id: Id)
    requires id in tab && tab[id].row.eventTimestamp.Valid() && (op.RecoverOp? ==> op.lo.Valid() && op.hi.Valid())
    ensures id in Step(cfg, tab, op)
    ensures var reply := ReplyTo(op, id, tab[id]);
            if reply.None? then Step(cfg, tab, op)[id] == tab[id]
            else Step(cfg, tab, op)[id].posts == tab[id].posts + [reply.value.at]
  {
    hide Dispatched, Key;
    if op.RecoverOp? {
      TicksOrder(tab[id].row.eventTimestamp, op.lo);
      TicksOrder(op.hi, tab[id].row.eventTimestamp);
    }
    StepIsPointwise(cfg, tab, op);
  }

  /** What a posted delivery starts from: a replayed or recovered dead letter from nothing, any
      other delivery from the attempts and the code it has. */
  lemma PostedVerdict(cfg: Config, tab: Table, op: Op, id: Id)
    requires id in tab && tab[id].row.eventTimestamp.Valid() && (op.RecoverOp? ==> op.lo.Valid() && op.hi.Valid())
    requires ReplyTo(op, id, tab[id]).Some?
    ensures id in Step(cfg, tab, op)
    ensures var d, r, e := tab[id].row, ReplyTo(op, id, tab[id]).value, Step(cfg, tab, op)[id].row;
            var anew := (op.ReplayOp? || op.RecoverOp?) && d.status == DeadLetter;
            var code := if r.outcome.Response? then Some(r.outcome.code) else if anew then None else d.code;
            && e.attempts == (if anew then 1 else d.attempts + 1)
            && e.code == code
            && (e.status == Success <==> r.outcome.Response? && 200 <= r.outcome.code < 300)
            && (e.status == Retrying <==>
                  && e.status != Success && e.attempts <= Budget(cfg, d.webhook)
                  && (code.None? || code.value == 0 || 500 <= code.value < 600))
            && (e.status == DeadLetter <==> e.status != Success && e.status != Retrying)
            && e.context == d.context && e.webhook == d.webhook && e.event == d.event
            && (anew && e.status != Success ==> e.deliveredAt.None?)
            && ((op.ReplayOp? || op.RecoverOp?) && e.status != DeadLetter ==> e.deadLetteredAt.None?)
  {
    hide Key, Dispatched;
    if op.RecoverOp? {
      TicksOrder(tab[id].row.eventTimestamp, op.lo);
      TicksOrder(op.hi, tab[id].row.eventTimestamp);
    }
    StepIsPointwise(cfg, tab, op);
    var d, r := tab[id].row, ReplyTo(op, id, tab[id]).value;
    DispatchVerdict(cfg, d, r);
    DispatchVerdict(cfg, Reset(d), r);
    DispatchVerdict(cfg, d.(status := Pending, nextRetryAt := None, deadLetteredAt := None), r);
  }

  /** A replayed dead letter fares exactly as a fresh delivery of the same event on its first
      dispatch, whatever happened to it before. */
  lemma ReplayIsFirstDispatch(cfg: Config, t: Tracked, r: Reply)
    requires RowOk(cfg, t.row) && t.row.status == DeadLetter
    ensures var d := t.row;
            Replayed(cfg, t, r) ==
              Tracked(Dispatched(cfg, Fresh(d.webhook, d.event, d.eventTimestamp, d.context), r), t.posts + [r.at])
  {
    hide Dispatched, Key;
  }

  /** So it is scheduled again exactly when there is budget at all and the endpoint did not
      answer, or answered zero or 5xx. */
  lemma ReplayVerdict(cfg: Config, t: Tracked, r: Reply)
    requires t.row.status == DeadLetter
    ensures Replayed(cfg, t, r).row.status == Retrying <==>
              && Budget(cfg, t.row.webhook) >= 1
              && (r.outcome.NetworkError? || r.outcome.code == 0 || 500 <= r.outcome.code < 600)
  {
    DispatchVerdict(cfg, Reset(t.row), r);
  }

  /** A delivery is inserted exactly when its id is new and no delivery of the same webhook,
      event and timestamp exists. */
  lemma InsertsIff(cfg: Config, tab: Table, op: Op)
    requires TableOk(cfg, tab) && (op.CreateOp? || op.TriggerOp?) && ':' !in op.w.id && op.stamp.Valid()
    requires forall j :: j in tab ==> ':' !in tab[j].row.webhook.id && tab[j].row.eventTimestamp.Valid()
    ensures Inserts(tab, op) <==>
              && op.id !in tab
              && !(exists j :: j in tab && SameEvent(tab[j].row, op.w.id, op.e, op.stamp))
  {
    hide Key;
    forall j | j in tab
      ensures tab[j].row.key == Fresh(op.w, op.e, op.stamp, op.ctx).key <==>
                SameEvent(tab[j].row, op.w.id, op.e, op.stamp)
    {
      var d := tab[j].row;
      if d.key == Fresh(op.w, op.e, op.stamp, op.ctx).key {
        KeyInjective(d.webhook.id, d.event, IsoFormat(d.eventTimestamp), op.w.id, op.e, IsoFormat(op.stamp));
        IsoRoundTrip(d.eventTimestamp);
        IsoRoundTrip(op.stamp);
      }
    }
  }

  predicate SameEvent(d: Delivery, webhook: string, e: Event, stamp: Stamp) {
    d.webhook.id == webhook && d.event == e && d.eventTimestamp == stamp
  }

  /** What is inserted: a pending delivery, one that failed the schema check and was never
      posted, or one that was posted once. */
  lemma AddedVerdict(cfg: Config, op: Op)
    requires op.CreateOp? || op.TriggerOp?
    ensures var t := Added(cfg, op);
            var d := t.row;
            && d.webhook == op.w && d.event == op.e && d.eventTimestamp == op.stamp && d.context == op.ctx
            && (op.CreateOp? ==> d.status == Pending && t.posts == [] && d.attempts == 0)
            && (op.TriggerOp? && !op.schemaOk ==>
                  d.status == DeadLetter && d.deadLetteredAt == Some(op.r.at) && t.posts == [] && d.attempts == 0)
            && (op.TriggerOp? && op.schemaOk ==>
                  && t.posts == [op.r.at] && d.attempts == 1
                  && (d.status == Success <==> op.r.outcome.Response? && 200 <= op.r.outcome.code < 300)
                  && (d.status == Retrying <==>
                        && Budget(cfg, op.w) >= 1
                        && (op.r.outcome.NetworkError? || op.r.outcome.code == 0 || 500 <= op.r.outcome.code < 600)))
  {
    if op.TriggerOp? { DispatchVerdict(cfg, Fresh(op.w, op.e, op.stamp, op.ctx), op.r); }
  }

  /** Which dead letters a context replay is for: without a device and an outage all of the
      event; otherwise those whose payload names the given device or the given outage. */
  lemma InContextIff(d: Delivery, e: Event, device: string, outage: string)
    requires device != "" && outage != ""
    ensures var dead := d.status == DeadLetter && d.event == e;
            var named := d.context.Context? && d.context.device == Some(device);
            var during := d.context.Context? && d.context.outage == Some(outage);
            && (InContext(d, e, None, None) <==> dead)
            && (InContext(d, e, Some(""), Some("")) <==> dead)
            && (InContext(d, e, Some(device), None) <==> dead && named)
            && (InContext(d, e, None, Some(outage)) <==> dead && during)
            && (InContext(d, e, Some(device), Some(outage)) <==> dead && (named || during))
  {
  }

  /** Deliveries keep their key and event and never lose a recorded attempt. */
  predicate SameDelivery(before: Tracked, after: Tracked) {
    && after.row.key == before.row.key && after.row.eventTimestamp == before.row.eventTimestamp
    && after.row.webhook == before.row.webhook && after.row.event == before.row.event
    && before.posts <= after.posts
  }

  /** And once successful they never change again. */
  predicate Kept(before: Tracked, after: Tracked) {
    SameDelivery(before, after) && (before.row.status == Success ==> after == before)
  }

  /** The one operation that touches a delivered row: a queued task dispatching it again. */
  predicate HitsDelivered(op: Op, id: Id, t: Tracked) {
    op.DispatchOp? && op.id == id && t.row.status == Success
  }

  lemma MovedKeeps(cfg: Config, op: Op, id: Id, t: Tracked)
    requires RowOk(cfg, t.row)
    ensures RowOk(cfg, Moved(cfg, op, id, t).row) && SameDelivery(t, Moved(cfg, op, id, t))
    ensures if HitsDelivered(op, id, t) then |Moved(cfg, op, id, t).posts| > |t.posts|
            else Kept(t, Moved(cfg, op, id, t))
  {
    hide Dispatched, Key, TerminalCode;
    forall d: Delivery, r: Reply |
      && d.key == t.row.key && d.webhook == t.row.webhook
      && d.event == t.row.event && d.eventTimestamp == t.row.eventTimestamp
      ensures var e := Dispatched(cfg, d, r);
              && RowOk(cfg, e) && e.key == d.key && e.webhook == d.webhook
              && e.event == d.event && e.eventTimestamp == d.eventTimestamp
    {
      DispatchKeepsRowOk(cfg, d, r);
      DispatchVerdict(cfg, d, r);
    }
  }

  /** Every entry point keeps every row consistent and keeps keys unique and fixed; a delivery
      that has succeeded is touched by nothing but a bare dispatch of that very delivery. */
  lemma StepKeepsTable(cfg: Config, tab: Table, op: Op)
    requires TableOk(cfg, tab)
    ensures TableOk(cfg, Step(cfg, tab, op))
    ensures forall id :: id in tab ==>
              && id in Step(cfg, tab, op) && SameDelivery(tab[id], Step(cfg, tab, op)[id])
              && if HitsDelivered(op, id, tab[id]) then |Step(cfg, tab, op)[id].posts| > |tab[id].posts|
                 else Kept(tab[id], Step(cfg, tab, op)[id])
  {
    hide Step, Moved, RowOk, Fresh, Added, Kept, SameDelivery, HitsDelivered, KeyTaken, KeysUnique;
    StepIsPointwise(cfg, tab, op);
    KeysStayUnique(cfg, tab, op);
    forall id | id in tab
      ensures RowOk(cfg, Moved(cfg, op, id, tab[id]).row) && SameDelivery(tab[id], Moved(cfg, op, id, tab[id]))
      ensures if HitsDelivered(op, id, tab[id]) then |Moved(cfg, op, id, tab[id]).posts| > |tab[id].posts|
              else Kept(tab[id], Moved(cfg, op, id, tab[id]))
    {
      MovedKeeps(cfg, op, id, tab[id]);
    }
    if Inserts(tab, op) { AddedIsOk(cfg, op); }
  }

  lemma KeysStayUnique(cfg: Config, tab: Table, op: Op)
    requires TableOk(cfg, tab)
    ensures KeysUnique(Step(cfg, tab, op))
  {
    hide Step, Moved, RowOk, Fresh, Added;
    StepIsPointwise(cfg, tab, op);
    var tab' := Step(cfg, tab, op);
    forall id | id in tab ensures tab'[id].row.key == tab[id].row.key {
      MovedKeeps(cfg, op, id, tab[id]);
    }
    if Inserts(tab, op) { AddedIsOk(cfg, op); }
  }

  lemma AddedIsOk(cfg: Config, op: Op)
    requires op.CreateOp? || op.TriggerOp?
    ensures RowOk(cfg, Added(cfg, op).row) && Added(cfg, op).row.key == Fresh(op.w, op.e, op.stamp, op.ctx).key
  {
    if op.TriggerOp? { DispatchKeepsRowOk(cfg, Fresh(op.w, op.e, op.stamp, op.ctx), op.r); }
  }

  /** Somewhere in a run a queued task dispatches delivery id although it has succeeded. */
  predicate Redispatched(cfg: Config, tab: Table, ops: seq<Op>, id: Id) {
    ops != [] &&
    var before := Run(cfg, tab, ops[..|ops| - 1]);
    Redispatched(cfg, tab, ops[..|ops| - 1], id) || (id in before && HitsDelivered(ops[|ops| - 1], id, before[id]))
  }

  /** The delivery invariant over every run of every entry point. A delivery that has succeeded
      is left as it is unless a queued task dispatches it again, which leaves one more attempt. */
  lemma {:induction false} RunKeepsTable(cfg: Config, tab: Table, ops: seq<Op>)
    requires TableOk(cfg, tab)
    ensures TableOk(cfg, Run(cfg, tab, ops))
    ensures forall id :: id in tab ==> id in Run(cfg, tab, ops) && SameDelivery(tab[id], Run(cfg, tab, ops)[id])
    ensures forall id :: id in tab && tab[id].row.status == Success ==>
              if Redispatched(cfg, tab, ops, id) then |Run(cfg, tab, ops)[id].posts| > |tab[id].posts|
              else Run(cfg, tab, ops)[id] == tab[id]
  {
    hide TableOk, Step, HitsDelivered;
    if ops != [] {
      var before := Run(cfg, tab, ops[..|ops| - 1]);
      RunKeepsTable(cfg, tab, ops[..|ops| - 1]);
      StepKeepsTable(cfg, before, ops[|ops| - 1]);
      forall id | id in tab && tab[id].row.status == Success
        ensures if Redispatched(cfg, tab, ops, id) then |Run(cfg, tab, ops)[id].posts| > |tab[id].posts|
                else Run(cfg, tab, ops)[id] == tab[id]
      {
        assert SameDelivery(tab[id], before[id]) && SameDelivery(before[id], Run(cfg, tab, ops)[id]);
      }
    }
  }

  // ---------------------------------------------------------------------------
  // Bounded, paced delivery
  // ---------------------------------------------------------------------------

  /** Attempts are counted, spaced by the back-off of each retry, and within the budget. */
  predicate Paced(cfg: Config, t: Tracked) {
    && |t.posts| == t.row.attempts <= 1 + Max(0, Budget(cfg, t.row.webhook))
    && (forall i, j :: 0 <= i < j == i + 1 < |t.posts| ==> i < |cfg.delays| && t.posts[j] >= t.posts[i] + Delay(cfg, i))
    && (t.row.status == Retrying ==>
          && 1 <= |t.posts| <= |cfg.delays|
          && t.row.nextRetryAt == Some(t.posts[|t.posts| - 1] + Delay(cfg, |t.posts| - 1)))
  }

  /** The operations of the normal life of a delivery: a queued task dispatches it for the first
      time or when it is due, and a sweep posts after it has looked at the clock. */
  ghost predicate Scheduled(tab: Table, op: Op) {
    match op
    case CreateOp(_, _, _, _, _) => true
    case TriggerOp(_, _, _, _, _, _, _) => true
    case SweepOp(now, net) => forall id :: net(id).at >= now
    case DispatchOp(id, r) => id in tab ==> tab[id].row.status == Pending || Due(tab[id].row, r.at)
    case _ => false
  }

  lemma PostKeepsPace(cfg: Config, t: Tracked, r: Reply)
    requires Paced(cfg, t)
    requires || t.row.attempts == 0
             || (t.row.attempts <= Budget(cfg, t.row.webhook) && Due(t.row, r.at))
    ensures Paced(cfg, Post(cfg, t, r))
  {
    DispatchVerdict(cfg, t.row, r);
    var t' := Post(cfg, t, r);
    forall i, j | 0 <= i < j == i + 1 < |t'.posts|
      ensures i < |cfg.delays| && t'.posts[j] >= t'.posts[i] + Delay(cfg, i) {
      if j < |t.posts| {
        assert t'.posts[i] == t.posts[i] && t'.posts[j] == t.posts[j];
      } else {
        assert t'.posts[i] == t.posts[|t.posts| - 1] && t'.posts[j] == r.at;
      }
    }
  }

  lemma StepKeepsPace(cfg: Config, tab: Table, op: Op)
    requires TableOk(cfg, tab) && Scheduled(tab, op) && forall id :: id in tab ==> Paced(cfg, tab[id])
    ensures forall id :: id in Step(cfg, tab, op) ==> Paced(cfg, Step(cfg, tab, op)[id])
  {
    hide Step, Fresh, KeyTaken, Paced, Post;
    StepIsPointwise(cfg, tab, op);
    forall id | id in tab ensures Paced(cfg, Moved(cfg, op, id, tab[id])) {
      if op.SweepOp? && Due(tab[id].row, op.now) { PostKeepsPace(cfg, tab[id], op.net(id)); }
      if op.DispatchOp? && op.id == id { PostKeepsPace(cfg, tab[id], op.r); }
    }
    if Inserts(tab, op) { AddedIsPaced(cfg, op); }
  }

  lemma AddedIsPaced(cfg: Config, op: Op)
    requires op.CreateOp? || op.TriggerOp?
    ensures Paced(cfg, Added(cfg, op))
  {
    var t := Tracked(Fresh(op.w, op.e, op.stamp, op.ctx), []);
    assert Paced(cfg, t);
    if op.TriggerOp? { PostKeepsPace(cfg, t, op.r); }
  }

  ghost predicate ScheduledRun(cfg: Config, ops: seq<Op>) {
    ops == [] || (ScheduledRun(cfg, ops[..|ops| - 1]) && Scheduled(Run(cfg, map[], ops[..|ops| - 1]), ops[|ops| - 1]))
  }

  /** Over every run of creation, first dispatches and retry sweeps: at most one attempt more than the budget,
      successive attempts at least a back-off apart, and no retry scheduled beyond the cap. */
  lemma {:induction false} BoundedDelivery(cfg: Config, ops: seq<Op>)
    requires ScheduledRun(cfg, ops)
    ensures TableOk(cfg, Run(cfg, map[], ops))
    ensures forall id :: id in Run(cfg, map[], ops) ==>
              var t := Run(cfg, map[], ops)[id];
              && Paced(cfg, t)
              && |t.posts| <= 1 + Max(0, Budget(cfg, t.row.webhook))
              && |t.posts| <= 1 + |cfg.delays|
              && |t.posts| <= 1 + Max(0, if t.row.webhook.maxRetries == 0 then 3 else t.row.webhook.maxRetries)
              && (t.row.status == Retrying ==>
                    && t.row.attempts <= Budget(cfg, t.row.webhook)
                    && t.row.nextRetryAt.value <= t.posts[|t.posts| - 1] + cfg.cap)
  {
    hide Step;
    if ops != [] {
      BoundedDelivery(cfg, ops[..|ops| - 1]);
      StepKeepsPace(cfg, Run(cfg, map[], ops[..|ops| - 1]), ops[|ops| - 1]);
      StepKeepsTable(cfg, Run(cfg, map[], ops[..|ops| - 1]), ops[|ops| - 1]);
    }
  }

  predicate Settled(d: Delivery) {
    d.status == Success || d.status == DeadLetter
  }

  /** Attempts that a delivery waiting for a retry can still use up. */
  function AttemptsLeft(cfg: Config, d: Delivery): nat {
    if d.status == Retrying then Max(0, Budget(cfg, d.webhook) + 1 - d.attempts) else 0
  }

  /** A sweep that finds a delivery due strictly reduces what it has left. */
  lemma DueSweepDecreases(cfg: Config, t: Tracked, now: int, r: Reply)
    requires RowOk(cfg, t.row) && Due(t.row, now)
    ensures AttemptsLeft(cfg, Swept(cfg, t, now, r).row) < AttemptsLeft(cfg, t.row)
  {
    DispatchVerdict(cfg, t.row, r);
  }

  /** A run of sweeps, each late enough to find delivery id due if it is waiting. */
  predicate LateEnough(cfg: Config, tab: Table, sweeps: seq<Op>, id: Id) {
    sweeps == [] ||
    var before, sweep := Run(cfg, tab, sweeps[..|sweeps| - 1]), sweeps[|sweeps| - 1];
    && LateEnough(cfg, tab, sweeps[..|sweeps| - 1], id)
    && sweep.SweepOp? && (id in before && before[id].row.status == Retrying ==> Due(before[id].row, sweep.now))
  }

  /** Each such sweep uses up an attempt of a waiting delivery. */
  lemma {:induction false} SweepsUseAttempts(cfg: Config, tab: Table, sweeps: seq<Op>, id: Id)
    requires TableOk(cfg, tab) && id in tab && tab[id].row.status != Pending && LateEnough(cfg, tab, sweeps, id)
    ensures id in Run(cfg, tab, sweeps)
    ensures var d := Run(cfg, tab, sweeps)[id].row;
            && RowOk(cfg, d) && d.status != Pending
            && AttemptsLeft(cfg, d) <= Max(0, AttemptsLeft(cfg, tab[id].row) - |sweeps|)
  {
    hide Dispatched, Key, TerminalCode, AttemptsLeft;
    if sweeps != [] {
      var before, sweep := Run(cfg, tab, sweeps[..|sweeps| - 1]), sweeps[|sweeps| - 1];
      SweepsUseAttempts(cfg, tab, sweeps[..|sweeps| - 1], id);
      var d := before[id].row;
      if d.status == Retrying {
        DueSweepDecreases(cfg, before[id], sweep.now, sweep.net(id));
        DispatchKeepsRowOk(cfg, d, sweep.net(id));
      } else {
        NoneLeft(cfg, d);
      }
    }
  }

  lemma NoneLeft(cfg: Config, d: Delivery)
    requires RowOk(cfg, d) && d.status != Pending
    ensures AttemptsLeft(cfg, d) == 0 <==> Settled(d)
  {
  }

  /** Whatever the endpoints answer, repeated sweeps of the table bring every dispatched
      delivery to rest once there are as many of them, late enough, as it has attempts left. */
  lemma SweepsSettle(cfg: Config, tab: Table, sweeps: seq<Op>)
    requires TableOk(cfg, tab)
    ensures forall id ::
              && id in tab && tab[id].row.status != Pending
              && LateEnough(cfg, tab, sweeps, id) && |sweeps| >= AttemptsLeft(cfg, tab[id].row) ==>
                id in Run(cfg, tab, sweeps) && Settled(Run(cfg, tab, sweeps)[id].row)
  {
    hide Run, TableOk, LateEnough, AttemptsLeft, RowOk;
    forall id |
      && id in tab && tab[id].row.status != Pending
      && LateEnough(cfg, tab, sweeps, id) && |sweeps| >= AttemptsLeft(cfg, tab[id].row)
      ensures id in Run(cfg, tab, sweeps) && Settled(Run(cfg, tab, sweeps)[id].row)
    {
      SweepsUseAttempts(cfg, tab, sweeps, id);
      NoneLeft(cfg, Run(cfg, tab, sweeps)[id].row);
    }
  }

  // ---------------------------------------------------------------------------
  // Recovery
  // ---------------------------------------------------------------------------

  /** Recovery posts each in-window delivery that has not succeeded exactly once, leaves
      none of them pending, and touches nothing else. */
  lemma RecoveryConserves(cfg: Config, tab: Table, lo: Stamp, hi: Stamp, net: Id -> Reply)
    ensures var tab' := Recover(cfg, tab, lo, hi, net);
            && tab'.Keys == tab.Keys
            && forall id :: id in tab ==>
                 if InWindow(tab[id].row, lo, hi) && tab[id].row.status != Success then
                   && tab'[id].posts == tab[id].posts + [net(id).at]
                   && tab'[id].row.status in {Success, Retrying, DeadLetter}
                   && tab'[id].row.key == tab[id].row.key
                   && tab'[id].row.eventTimestamp == tab[id].row.eventTimestamp
                   && tab'[id].row.attempts ==
                        (if tab[id].row.status == DeadLetter then 1 else tab[id].row.attempts + 1)
                 else tab'[id] == tab[id]
  {
    hide Dispatched;
    forall d: Delivery, r: Reply
      ensures var e := Dispatched(cfg, d, r);
              && e.status in {Success, Retrying, DeadLetter} && e.key == d.key
              && e.eventTimestamp == d.eventTimestamp && e.attempts == d.attempts + 1
    {
      DispatchVerdict(cfg, d, r);
    }
  }

  // ---------------------------------------------------------------------------
  // Where the engine does less than its comments promise
  // ---------------------------------------------------------------------------

  /** A delivery is triggered and answered 404, then retried by hand and times out: it is not
      scheduled again, though budget is left, because the old code is still in the row. */
  lemma StaleCodeBlocksRetry(stamp: Stamp)
    ensures var cfg, w := Config([30, 120, 600], 3600), Webhook("w", 3);
            var trigger := TriggerOp(1, w, SlaViolation, stamp, Unreadable, true, Reply(Response(404), 0));
            var tab := Run(cfg, map[], [trigger, ManualOp("w", 1, Reply(NetworkError, 10))]);
            1 in tab && tab[1].row.attempts <= Budget(cfg, w) && tab[1].row.status == DeadLetter
  {
    hide Dispatched, Key;
    var cfg, w := Config([30, 120, 600], 3600), Webhook("w", 3);
    var first, second := Reply(Response(404), 0), Reply(NetworkError, 10);
    var trigger := TriggerOp(1, w, SlaViolation, stamp, Unreadable, true, first);
    var d := Fresh(w, SlaViolation, stamp, Unreadable);
    var ops := [trigger, ManualOp("w", 1, second)];
    DispatchVerdict(cfg, d, first);
    DispatchVerdict(cfg, Dispatched(cfg, d, first), second);
    assert ops[..1] == [trigger] && [trigger][..0] == [];
    assert Run(cfg, map[], [trigger]) == Step(cfg, Run(cfg, map[], []), trigger);
    assert Run(cfg, map[], ops) == Step(cfg, Run(cfg, map[], ops[..1]), ops[1]);
  }

  /** The bare dispatch has no guard of its own: on a delivered row it can end in dead-letter. */
  lemma BareDispatchLeavesSuccess(cfg: Config, d: Delivery, r: Reply)
    requires d.status == Success
    ensures Dispatched(cfg, d, r).status == Success <==> r.outcome.Response? && 200 <= r.outcome.code < 300
  {
    DispatchVerdict(cfg, d, r);
  }
}
