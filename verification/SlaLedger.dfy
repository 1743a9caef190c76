/** The ledger of SLA results with its authoritative-latest flag: storing a result,
    proposing and applying a corrected one through a dispute, and the backfill migration. */
module SlaLedger {
  import opened Common
  import Settlement

  type Result = Settlement.Result
  type SlaConfig = map<string, Settlement.SevConfig>

  /** createdAt is the column's default, which the program evaluates once, when a process starts. */
  datatype Row = Row(result: Result, isLatest: bool, createdAt: int)

  datatype DisputeStatus = Pending | Resolved | Rejected

  datatype Dispute = Dispute(result: nat, baseline: nat, proposed: Option<nat>, status: DisputeStatus)

  type Rows = map<nat, Row>

  /** Row ids come from a counter that starts above every id in use. */
  datatype Ledger = Ledger(rows: Rows, next: nat, disputes: map<nat, Dispute>, nextDispute: nat) {
    predicate Valid() {
      && next > 0
      && (forall id :: id in rows ==> id < next)
      && (forall d :: d in disputes ==> d < nextDispute)
    }
  }

  function LatestIds(rows: Rows, outage: string): set<nat> {
    set id | id in rows && rows[id].isLatest && rows[id].result.outage == outage
  }

  // ---------------------------------------------------------------------------
  // Transitions
  // ---------------------------------------------------------------------------

  function Demoted(rows: Rows, outage: string): Rows {
    map id | id in rows :: if rows[id].result.outage == outage then rows[id].(isLatest := false) else rows[id]
  }

  /** SLARepository.create */
  function Create(l: Ledger, r: Result, at: int): Ledger {
    l.(rows := Demoted(l.rows, r.outage)[l.next := Row(r, true, at)], next := l.next + 1)
  }

  predicate HasPending(l: Ledger, result: nat) {
    exists d :: d in l.disputes && IsPending(l, d, result)
  }

  predicate IsPending(l: Ledger, d: nat, result: nat) {
    d in l.disputes && l.disputes[d].result == result && l.disputes[d].status == Pending
  }

  /** flag_dispute: refused for an unknown result or while a dispute is open. */
  function Flag(l: Ledger, result: nat): Ledger {
    if result !in l.rows || HasPending(l, result) then l
    else l.(disputes := l.disputes[l.nextDispute := Dispute(result, result, None, Pending)],
            nextDispute := l.nextDispute + 1)
  }

  /** create_proposed_sla on pending dispute d: the new row is stored without the flag. */
  function Propose(config: SlaConfig, l: Ledger, result: nat, d: nat, severity: string, mttr: int, at: int): Ledger {
    if !IsPending(l, d, result) || l.disputes[d].baseline !in l.rows then l
    else match Settlement.Calculate(config, l.rows[l.disputes[d].baseline].result.outage, severity, mttr)
      case None => l
      case Some(r) =>
        l.(rows := l.rows[l.next := Row(r, false, at)], next := l.next + 1,
           disputes := l.disputes[d := l.disputes[d].(proposed := Some(l.next))])
  }

  /** The row that an unordered "first latest row of this outage" query may return. */
  predicate IsFirstLatest(rows: Rows, outage: string, first: Option<nat>) {
    if first.None? then LatestIds(rows, outage) == {} else first.value in LatestIds(rows, outage)
  }

  function Promoted(rows: Rows, proposed: nat, first: Option<nat>): Rows
    requires proposed in rows && (first.Some? ==> first.value in rows)
  {
    var rows := if first.Some? then rows[first.value := rows[first.value].(isLatest := false)] else rows;
    rows[proposed := rows[proposed].(isLatest := true)]
  }

  /** The proposal that resolving dispute d would apply; None when the request is refused. */
  function Applicable(l: Ledger, result: nat, d: nat): Option<nat> {
    if !IsPending(l, d, result) then None
    else match l.disputes[d].proposed
      case None => None
      case Some(p) => if p == 0 || p !in l.rows then None else Some(p)
  }

  /** `first` is a possible answer to the latest-row query made while resolving dispute d. */
  predicate AnswersQuery(l: Ledger, result: nat, d: nat, first: Option<nat>) {
    Applicable(l, result, d).Some? ==>
      IsFirstLatest(l.rows, l.rows[Applicable(l, result, d).value].result.outage, first)
  }

  /** resolve_dispute: `first` is what the latest-row query returned. */
  function Resolve(l: Ledger, result: nat, d: nat, status: DisputeStatus, apply: bool, first: Option<nat>): Ledger
    requires AnswersQuery(l, result, d, first)
  {
    if status == Pending || !IsPending(l, d, result) then l
    else
      var closed := l.(disputes := l.disputes[d := l.disputes[d].(status := status)]);
      if status != Resolved || !apply then closed
      else match Applicable(l, result, d)
        case None => l
        case Some(p) => closed.(rows := Promoted(l.rows, p, first))
  }

  /** The row that the migration keeps flagged among its outage's flagged rows. */
  predicate IsHighestLatest(rows: Rows, id: nat) {
    id in rows && rows[id].isLatest && forall j :: j in LatestIds(rows, rows[id].result.outage) ==> j <= id
  }

  /** Migration 0012 as a transformation of the table. */
  function Backfilled(rows: Rows): Rows {
    map id | id in rows :: rows[id].(isLatest := IsHighestLatest(rows, id))
  }

  // ---------------------------------------------------------------------------
  // Runs, and the row that ought to be latest
  // ---------------------------------------------------------------------------

  datatype Op =
    | CreateOp(r: Result, at: int)
    | FlagOp(result: nat)
    | ProposeOp(result: nat, d: nat, severity: string, mttr: int, at: int)
    | ResolveOp(result: nat, d: nat, status: DisputeStatus, apply: bool, first: Option<nat>)

  ghost predicate Legal(l: Ledger, op: Op) {
    op.ResolveOp? ==> AnswersQuery(l, op.result, op.d, op.first)
  }

  ghost function Step(config: SlaConfig, l: Ledger, op: Op): Ledger
    requires Legal(l, op)
  {
    match op
    case CreateOp(r, at) => Create(l, r, at)
    case FlagOp(result) => Flag(l, result)
    case ProposeOp(result, d, s, m, at) => Propose(config, l, result, d, s, m, at)
    case ResolveOp(result, d, status, apply, first) => Resolve(l, result, d, status, apply, first)
  }

  /** For each outage, the row last created or promoted: the intended authority. */
  ghost function Expect(last: map<string, nat>, l: Ledger, op: Op): map<string, nat> {
    match op
    case CreateOp(r, _) => last[r.outage := l.next]
    case ResolveOp(result, d, status, apply, _) =>
      if status == Resolved && apply && Applicable(l, result, d).Some?
      then last[l.rows[Applicable(l, result, d).value].result.outage := Applicable(l, result, d).value] else last
    case _ => last
  }

  /** The states of the ledger and of the expectation along a run. */
  datatype Trace = Start(l: Ledger) | After(before: Trace, op: Op, l: Ledger)

  ghost predicate IsRun(config: SlaConfig, t: Trace) {
    match t
    case Start(l) => l.Valid()
    case After(b, op, l) => IsRun(config, b) && Legal(b.l, op) && l == Step(config, b.l, op)
  }

  ghost function Origin(t: Trace): Ledger {
    match t
    case Start(l) => l
    case After(b, _, _) => Origin(b)
  }

  ghost function Expected(t: Trace): map<string, nat> {
    match t
    case Start(_) => map[]
    case After(b, op, _) => Expect(Expected(b), b.l, op)
  }

  /** At most one latest row per outage, and the expected one where there is an expectation. */
  ghost predicate Authoritative(l: Ledger, last: map<string, nat>) {
    && l.Valid()
    && (forall o :: |LatestIds(l.rows, o)| <= 1)
    && (forall o :: o in last ==> LatestIds(l.rows, o) == {last[o]})
  }

  lemma BackfillLatest(rows: Rows, o: string)
    ensures forall id :: id in LatestIds(Backfilled(rows), o) <==>
              id in LatestIds(rows, o) && forall j :: j in LatestIds(rows, o) ==> j <= id
    ensures |LatestIds(Backfilled(rows), o)| <= 1
    ensures LatestIds(rows, o) != {} ==> LatestIds(Backfilled(rows), o) != {}
  {
    var s := LatestIds(Backfilled(rows), o);
    assert forall id :: id in s ==> id in LatestIds(rows, o) && IsHighestLatest(rows, id);
    AtMostOne(s);
    if LatestIds(rows, o) != {} {
      var m := Highest(LatestIds(rows, o));
      assert m in s;
    }
  }

  lemma AtMostOne(s: set<nat>)
    requires forall i, j :: i in s && j in s ==> i == j
    ensures |s| <= 1
  {
    if s != {} {
      var x :| x in s;
      assert s == {x};
    }
  }

  lemma {:induction false} Highest(s: set<nat>) returns (m: nat)
    requires s != {}
    ensures m in s && forall j :: j in s ==> j <= m
    decreases s
  {
    m :| m in s;
    var rest := s - {m};
    assert s == rest + {m};
    if rest != {} {
      var k := Highest(rest);
      if k > m { m := k; }
    }
  }

  /** The backfill leaves, of each outage's flagged rows, exactly the one with the highest
      id, changes no other column, and does nothing on a second run. */
  lemma BackfillIsExact(rows: Rows)
    ensures Backfilled(rows).Keys == rows.Keys
    ensures forall id :: id in rows ==> Backfilled(rows)[id].result == rows[id].result
    ensures forall o :: |LatestIds(Backfilled(rows), o)| <= 1
    ensures forall o, id :: id in LatestIds(Backfilled(rows), o) <==>
              id in LatestIds(rows, o) && forall j :: j in LatestIds(rows, o) ==> j <= id
    ensures forall o :: LatestIds(rows, o) != {} ==> LatestIds(Backfilled(rows), o) != {}
    ensures Backfilled(Backfilled(rows)) == Backfilled(rows)
  {
    forall o
      ensures |LatestIds(Backfilled(rows), o)| <= 1
      ensures forall id :: id in LatestIds(Backfilled(rows), o) <==>
                id in LatestIds(rows, o) && forall j :: j in LatestIds(rows, o) ==> j <= id
      ensures LatestIds(rows, o) != {} ==> LatestIds(Backfilled(rows), o) != {}
    {
      BackfillLatest(rows, o);
    }
  }

  lemma DemotedLatest(rows: Rows, outage: string, o: string)
    ensures LatestIds(Demoted(rows, outage), o) == if o == outage then {} else LatestIds(rows, o)
  {
  }

  lemma InsertedLatest(rows: Rows, id: nat, row: Row, o: string)
    requires id !in rows
    ensures LatestIds(rows[id := row], o) ==
              LatestIds(rows, o) + (if row.isLatest && row.result.outage == o then {id} else {})
  {
  }

  lemma PromotedLatest(rows: Rows, p: nat, first: Option<nat>, o: string)
    requires p in rows && |LatestIds(rows, rows[p].result.outage)| <= 1
             && IsFirstLatest(rows, rows[p].result.outage, first)
    ensures LatestIds(Promoted(rows, p, first), o) == if o == rows[p].result.outage then {p} else LatestIds(rows, o)
  {
    var s := LatestIds(rows, rows[p].result.outage);
    if first.Some? { SubsetOfSameSize({first.value}, s); }
    var after := Promoted(rows, p, first);
    forall id ensures id in LatestIds(after, o) <==>
        if o == rows[p].result.outage then id == p else id in LatestIds(rows, o) {
      if o == rows[p].result.outage && id in rows && id != p { assert id in s ==> first == Some(id); }
    }
  }

  lemma CreateKeepsAuthority(l: Ledger, r: Result, at: int, last: map<string, nat>)
    requires Authoritative(l, last)
    ensures Authoritative(Create(l, r, at), last[r.outage := l.next])
  {
    var l' := Create(l, r, at);
    forall o ensures LatestIds(l'.rows, o) == if o == r.outage then {l.next} else LatestIds(l.rows, o) {
      DemotedLatest(l.rows, r.outage, o);
      InsertedLatest(Demoted(l.rows, r.outage), l.next, Row(r, true, at), o);
    }
  }

  lemma ProposeKeepsAuthority(config: SlaConfig, l: Ledger, result: nat, d: nat,
                              severity: string, mttr: int, at: int, last: map<string, nat>)
    requires Authoritative(l, last)
    ensures Authoritative(Propose(config, l, result, d, severity, mttr, at), last)
  {
    hide Settlement.Calculate, LatestIds;
    var l' := Propose(config, l, result, d, severity, mttr, at);
    forall o ensures LatestIds(l'.rows, o) == LatestIds(l.rows, o) {
      if l'.rows != l.rows { InsertedLatest(l.rows, l.next, l'.rows[l.next], o); }
    }
  }

  lemma ResolveKeepsAuthority(l: Ledger, op: Op, last: map<string, nat>)
    requires op.ResolveOp? && Legal(l, op) && Authoritative(l, last)
    ensures Authoritative(Resolve(l, op.result, op.d, op.status, op.apply, op.first), Expect(last, l, op))
  {
    hide LatestIds, IsFirstLatest;
    var l' := Resolve(l, op.result, op.d, op.status, op.apply, op.first);
    if op.status == Resolved && op.apply && Applicable(l, op.result, op.d).Some? {
      var p := Applicable(l, op.result, op.d).value;
      forall o ensures LatestIds(l'.rows, o) == if o == l.rows[p].result.outage then {p} else LatestIds(l.rows, o) {
        PromotedLatest(l.rows, p, op.first, o);
      }
      PromotedKeys(l.rows, p, op.first);
    }
  }

  lemma PromotedKeys(rows: Rows, p: nat, first: Option<nat>)
    requires p in rows && IsFirstLatest(rows, rows[p].result.outage, first)
    ensures Promoted(rows, p, first).Keys == rows.Keys
  {
  }

  lemma StepKeepsAuthority(config: SlaConfig, l: Ledger, op: Op, last: map<string, nat>)
    requires Legal(l, op) && Authoritative(l, last)
    ensures Authoritative(Step(config, l, op), Expect(last, l, op))
  {
    hide LatestIds, Create, Propose, Resolve;
    match op
    case CreateOp(r, at) => CreateKeepsAuthority(l, r, at, last);
    case FlagOp(_) =>
    case ProposeOp(result, d, s, m, at) => ProposeKeepsAuthority(config, l, result, d, s, m, at, last);
    case ResolveOp(_, _, _, _, _) => ResolveKeepsAuthority(l, op, last);
  }

  /** From any table whatever, once backfilled, every run of create, flag, propose and resolve
      keeps at most one latest row per outage, and for every outage that a create or an applied
      proposal has touched, exactly the row created or promoted last. */
  lemma {:induction false} SingleLatest(config: SlaConfig, t: Trace, rows: Rows)
    requires IsRun(config, t) && Origin(t).rows == Backfilled(rows)
    ensures Authoritative(t.l, Expected(t))
  {
    match t
    case Start(l) =>
      BackfillIsExact(rows);
    case After(b, op, l) =>
      SingleLatest(config, b, rows);
      StepKeepsAuthority(config, b.l, op, Expected(b));
  }

  // ---------------------------------------------------------------------------
  // Disputes
  // ---------------------------------------------------------------------------

  /** At most one open dispute per result; a dispute's baseline and proposal are stored rows of
      one outage. */
  ghost predicate DisputesOk(l: Ledger) {
    && l.Valid()
    && (forall d, e ::
          && d in l.disputes && e in l.disputes
          && IsPending(l, d, l.disputes[d].result) && IsPending(l, e, l.disputes[d].result) ==>
            d == e)
    && (forall d :: d in l.disputes ==> DisputeOk(l.rows, l.disputes[d]))
  }

  predicate DisputeOk(rows: Rows, d: Dispute) {
    && d.baseline == d.result && d.result in rows
    && (d.proposed.Some? ==>
          && d.proposed.value in rows
          && rows[d.proposed.value].result.outage == rows[d.result].result.outage)
  }

  /** Rows are never removed and never move to another outage. */
  predicate RowsKept(rows: Rows, rows': Rows) {
    forall id :: id in rows ==> id in rows' && rows'[id].result == rows[id].result
  }

  lemma KeptDispute(rows: Rows, rows': Rows, d: Dispute)
    requires RowsKept(rows, rows') && DisputeOk(rows, d)
    ensures DisputeOk(rows', d)
  {
  }

  lemma StepKeepsRows(config: SlaConfig, l: Ledger, op: Op)
    requires l.Valid() && Legal(l, op)
    ensures RowsKept(l.rows, Step(config, l, op).rows) && Step(config, l, op).Valid()
  {
    hide Settlement.Calculate;
  }

  lemma CreateKeepsDisputes(l: Ledger, r: Result, at: int)
    requires DisputesOk(l)
    ensures DisputesOk(Create(l, r, at))
  {
    KeptDisputes(l, Create(l, r, at));
  }

  lemma FlagKeepsDisputes(l: Ledger, result: nat)
    requires DisputesOk(l)
    ensures DisputesOk(Flag(l, result))
  {
  }

  lemma ProposeKeepsDisputes(config: SlaConfig, l: Ledger, result: nat, d: nat, severity: string, mttr: int, at: int)
    requires DisputesOk(l)
    ensures DisputesOk(Propose(config, l, result, d, severity, mttr, at))
  {
    hide Settlement.Assess;
    var l' := Propose(config, l, result, d, severity, mttr, at);
    if l' != l {
      Settlement.CalculateKeepsOutage(config, l.rows[l.disputes[d].baseline].result.outage, severity, mttr);
      KeptDisputes(l, l'.(disputes := l.disputes));
    }
  }

  lemma ResolveKeepsDisputes(l: Ledger, op: Op)
    requires op.ResolveOp? && Legal(l, op) && DisputesOk(l)
    ensures DisputesOk(Resolve(l, op.result, op.d, op.status, op.apply, op.first))
  {
    hide Promoted;
    var l' := Resolve(l, op.result, op.d, op.status, op.apply, op.first);
    StepKeepsRows(map[], l, op);
    KeptDisputes(l, l'.(disputes := l.disputes));
  }

  /** Disputes stay sound when rows are added or change their flag. */
  lemma KeptDisputes(l: Ledger, l': Ledger)
    requires DisputesOk(l) && l'.Valid() && RowsKept(l.rows, l'.rows) && l'.disputes == l.disputes
    ensures DisputesOk(l')
  {
    hide DisputeOk;
    forall d | d in l'.disputes ensures DisputeOk(l'.rows, l'.disputes[d]) {
      KeptDispute(l.rows, l'.rows, l.disputes[d]);
    }
  }

  lemma StepKeepsDisputes(config: SlaConfig, l: Ledger, op: Op)
    requires Legal(l, op) && DisputesOk(l)
    ensures DisputesOk(Step(config, l, op))
  {
    hide DisputesOk, Create, Flag, Propose, Resolve;
    match op
    case CreateOp(r, at) => CreateKeepsDisputes(l, r, at);
    case FlagOp(result) => FlagKeepsDisputes(l, result);
    case ProposeOp(result, d, s, m, at) => ProposeKeepsDisputes(config, l, result, d, s, m, at);
    case ResolveOp(_, _, _, _, _) => ResolveKeepsDisputes(l, op);
  }

  /** Along every run there is never a second open dispute on a result, so the query for "the"
      pending dispute has one answer, and applying a proposal stays within the outage. */
  lemma {:induction false} RunKeepsDisputes(config: SlaConfig, t: Trace)
    requires IsRun(config, t) && DisputesOk(Origin(t))
    ensures DisputesOk(t.l)
  {
    match t
    case Start(l) =>
    case After(b, op, l) =>
      RunKeepsDisputes(config, b);
      StepKeepsDisputes(config, b.l, op);
  }

  // ---------------------------------------------------------------------------
  // What the operations write
  // ---------------------------------------------------------------------------

  /** Nothing but flags differs between the common rows of two tables. */
  predicate SameColumns(rows: Rows, rows': Rows) {
    forall id :: id in rows ==> id in rows' && rows'[id] == rows[id].(isLatest := rows'[id].isLatest)
  }

  /** A stored result is the given one, flagged; of the older rows only the flags of this outage
      change, and disputes do not. */
  lemma CreateVerdict(l: Ledger, r: Result, at: int)
    requires l.Valid()
    ensures var l' := Create(l, r, at);
            && l'.rows.Keys == l.rows.Keys + {l.next} && l'.rows[l.next] == Row(r, true, at)
            && SameColumns(l.rows, l'.rows) && l'.disputes == l.disputes && l'.next == l.next + 1
            && forall id :: id in l.rows ==>
                 l'.rows[id].isLatest == (l.rows[id].isLatest && l.rows[id].result.outage != r.outage)
  {
  }

  /** Flagging opens one dispute on a known result without an open one, against that result
      itself; otherwise nothing happens. */
  lemma FlagVerdict(l: Ledger, result: nat)
    requires l.Valid()
    ensures var l' := Flag(l, result);
            && l'.rows == l.rows
            && (result in l.rows ==> HasPending(l', result))
            && (if result in l.rows && !HasPending(l, result)
                then l'.disputes == l.disputes[l.nextDispute := Dispute(result, result, None, Pending)] &&
                     l'.nextDispute == l.nextDispute + 1
                else l'.disputes == l.disputes)
  {
    var l' := Flag(l, result);
    if result in l.rows && !HasPending(l, result) { assert IsPending(l', l.nextDispute, result); }
  }

  /** A proposal on an open dispute is the recalculated result of the baseline's outage: it is
      stored unflagged and linked to the dispute, and no other row or dispute changes. */
  lemma ProposeVerdict(config: SlaConfig, l: Ledger, result: nat, d: nat, severity: string, mttr: int, at: int)
    requires l.Valid() && DisputesOk(l) && IsPending(l, d, result) && Settlement.Lower(severity) in config
    ensures var l', c := Propose(config, l, result, d, severity, mttr, at), config[Settlement.Lower(severity)];
            && l'.rows.Keys == l.rows.Keys + {l.next} && l.next !in l.rows && l'.next == l.next + 1
            && (forall id :: id in l.rows ==> l'.rows[id] == l.rows[id])
            && l'.disputes == l.disputes[d := l.disputes[d].(proposed := Some(l.next))]
            && var row := l'.rows[l.next];
               && !row.isLatest && row.createdAt == at
               && row.result.outage == l.rows[result].result.outage && row.result.mttr == mttr
               && row.result.amount == Settlement.Amount(mttr, c)
               && (row.result.kind == Settlement.Penalty <==> mttr > c.threshold)
               && (row.result.verdict == Settlement.Violated <==> mttr > c.threshold)
  {
    hide Settlement.Assess, Settlement.Lower;
    assert DisputeOk(l.rows, l.disputes[d]);
    Settlement.AssessAmount(l.rows[result].result.outage, mttr, config[Settlement.Lower(severity)]);
  }

  lemma ProposeNeedsASeverity(config: SlaConfig, l: Ledger, result: nat, d: nat, severity: string, mttr: int, at: int)
    requires !IsPending(l, d, result) || Settlement.Lower(severity) !in config
    ensures Propose(config, l, result, d, severity, mttr, at) == l
  {
  }

  /** Resolving closes the dispute with the given status; unless a proposal is applied no row
      changes. An application without a proposal and a resolution as pending are refused. */
  lemma ResolveVerdict(l: Ledger, result: nat, d: nat, status: DisputeStatus, apply: bool, first: Option<nat>)
    requires AnswersQuery(l, result, d, first) && IsPending(l, d, result)
    ensures var l' := Resolve(l, result, d, status, apply, first);
            && SameColumns(l.rows, l'.rows) && l'.rows.Keys == l.rows.Keys
            && (if status == Pending || (status == Resolved && apply && Applicable(l, result, d).None?) then l' == l
                else l'.disputes == l.disputes[d := l.disputes[d].(status := status)])
            && (status == Rejected || !apply ==> l'.rows == l.rows)
  {
  }

  /** A whole dispute: a result is flagged, a correction is proposed, and the dispute is resolved
      by applying it. Whatever else the ledger holds, the outage's latest row is then the
      recalculation, the disputed row is still there as it was, and the dispute is closed. */
  lemma DisputeCorrectsTheLedger(config: SlaConfig, l: Ledger, last: map<string, nat>, result: nat,
                                 severity: string, mttr: int, at: int, first: Option<nat>)
    requires Authoritative(l, last) && DisputesOk(l) && result in l.rows && !HasPending(l, result)
    requires Settlement.Lower(severity) in config
    requires var l2 := Propose(config, Flag(l, result), result, l.nextDispute, severity, mttr, at);
             AnswersQuery(l2, result, l.nextDispute, first)
    ensures var l2 := Propose(config, Flag(l, result), result, l.nextDispute, severity, mttr, at);
            var l3 := Resolve(l2, result, l.nextDispute, Resolved, true, first);
            var outage := l.rows[result].result.outage;
            && LatestIds(l3.rows, outage) == {l.next}
            && l3.rows[l.next].result.amount == Settlement.Amount(mttr, config[Settlement.Lower(severity)])
            && l3.rows[result].result == l.rows[result].result
            && !HasPending(l3, result)
  {
    hide LatestIds, Flag, Propose, Resolve, Settlement.Lower, Settlement.Amount;
    var d, l1 := l.nextDispute, Flag(l, result);
    FlagVerdict(l, result);
    FlagKeepsDisputes(l, result);
    OthersNotPending(l, result, l1);
    FlagKeepsNext(l, result);
    ProposeVerdict(config, l1, result, d, severity, mttr, at);
    ProposeKeepsAuthority(config, l1, result, d, severity, mttr, at, last);
    ProposeKeepsDisputes(config, l1, result, d, severity, mttr, at);
    var l2 := Propose(config, l1, result, d, severity, mttr, at);
    var op := ResolveOp(result, d, Resolved, true, first);
    ResolveVerdict(l2, result, d, Resolved, true, first);
    ResolveKeepsAuthority(l2, op, last);
    assert Applicable(l2, result, d) == Some(l.next);
    NothingPending(l2, result, d, Resolve(l2, result, d, Resolved, true, first));
  }

  lemma FlagKeepsNext(l: Ledger, result: nat)
    ensures Flag(l, result).next == l.next && Flag(l, result).rows == l.rows
  {
  }

  lemma OthersNotPending(l: Ledger, result: nat, l1: Ledger)
    requires l.Valid() && result in l.rows && !HasPending(l, result) && l1 == Flag(l, result)
    ensures IsPending(l1, l.nextDispute, result)
  {
  }

  lemma NothingPending(l: Ledger, result: nat, d: nat, l': Ledger)
    requires DisputesOk(l) && IsPending(l, d, result)
    requires exists s :: s != Pending && l'.disputes == l.disputes[d := l.disputes[d].(status := s)]
    ensures !HasPending(l', result)
  {
    assert forall e :: e in l.disputes && IsPending(l, e, result) ==> e == d;
    assert forall e :: e in l'.disputes && e != d && IsPending(l', e, result) ==> IsPending(l, e, result);
  }

  // ---------------------------------------------------------------------------
  // The database
  // ---------------------------------------------------------------------------

  class Database {
    var l: Ledger

    constructor (l: Ledger)
      requires l.Valid()
      ensures this.l == l
    {
      this.l := l;
    }

    /** SLARepository.create: demotes only when some row is flagged, then inserts. */
    method CreateResult(r: Result, at: int) returns (id: nat)
      requires l.Valid()
      modifies this
      ensures l == Create(old(l), r, at) && l.Valid() && id == old(l.next)
    {
      var latest := LatestIds(l.rows, r.outage);
      var rows := l.rows;
      if latest != {} {
        rows := map id | id in rows :: if id in latest then rows[id].(isLatest := false) else rows[id];
      }
      forall id | id in l.rows ensures rows[id] == Demoted(l.rows, r.outage)[id] {
        assert id in latest <==> l.rows[id].isLatest && l.rows[id].result.outage == r.outage;
      }
      assert rows == Demoted(l.rows, r.outage);
      id := l.next;
      l := l.(rows := rows[id := Row(r, true, at)], next := id + 1);
    }

    method FlagDispute(result: nat) returns (ok: bool)
      requires l.Valid()
      modifies this
      ensures l == Flag(old(l), result) && l.Valid()
      ensures ok <==> result in old(l).rows && !HasPending(old(l), result)
    {
      ok := result in l.rows && !HasPending(l, result);
      if ok {
        l := l.(disputes := l.disputes[l.nextDispute := Dispute(result, result, None, Pending)],
                nextDispute := l.nextDispute + 1);
      }
    }

    method CreateProposed(config: SlaConfig, result: nat, severity: string, mttr: int, at: int) returns (ghost d: nat)
      requires l.Valid()
      modifies this
      ensures HasPending(old(l), result) ==> IsPending(old(l), d, result)
      ensures l == Propose(config, old(l), result, d, severity, mttr, at) && l.Valid()
    {
      var pending := set d | d in l.disputes && IsPending(l, d, result);
      d := 0;
      if pending == {} {
        assert forall e :: e in l.disputes && IsPending(l, e, result) ==> e in pending;
        return;
      }
      var k := Pick(pending);
      d := k;
      var dispute := l.disputes[k];
      if dispute.baseline !in l.rows { return; }
      var r := Settlement.Calculate(config, l.rows[dispute.baseline].result.outage, severity, mttr);
      if r.None? { return; }
      l := l.(rows := l.rows[l.next := Row(r.value, false, at)], next := l.next + 1,
              disputes := l.disputes[k := dispute.(proposed := Some(l.next))]);
    }

    method ResolveDispute(result: nat, status: DisputeStatus, apply: bool)
      returns (ghost d: nat, ghost first: Option<nat>)
      requires l.Valid()
      modifies this
      ensures HasPending(old(l), result) ==> IsPending(old(l), d, result)
      ensures AnswersQuery(old(l), result, d, first)
      ensures l == Resolve(old(l), result, d, status, apply, first) && l.Valid()
    {
      var pending := set d | d in l.disputes && IsPending(l, d, result);
      d, first := 0, None;
      if pending == {} {
        assert forall e :: e in l.disputes && IsPending(l, e, result) ==> e in pending;
        return;
      }
      var k := Pick(pending);
      d := k;
      var found: Option<nat> := None;
      var p := Applicable(l, result, k);
      if p.Some? {
        var latest := LatestIds(l.rows, l.rows[p.value].result.outage);
        if latest != {} {
          var x := Pick(latest);
          found := Some(x);
        }
      }
      first := found;
      if status == Pending { return; }
      var closed := l.(disputes := l.disputes[k := l.disputes[k].(status := status)]);
      if status == Resolved && apply {
        if p.None? { return; }
        var rows := l.rows;
        if found.Some? { rows := rows[found.value := rows[found.value].(isLatest := false)]; }
        rows := rows[p.value := rows[p.value].(isLatest := true)];
        closed := closed.(rows := rows);
      }
      l := closed;
    }

    /** get_by_outage: a flagged row or, when none is flagged, a newest row of the outage. */
    method GetByOutage(outage: string) returns (r: Option<nat>)
      ensures LatestIds(l.rows, outage) != {} ==> r.Some? && r.value in LatestIds(l.rows, outage)
      ensures forall id :: LatestIds(l.rows, outage) == {id} ==> r == Some(id)
      ensures LatestIds(l.rows, outage) == {} && r.Some? ==>
                && r.value in l.rows && l.rows[r.value].result.outage == outage
                && forall id :: id in l.rows && l.rows[id].result.outage == outage ==>
                     l.rows[id].createdAt <= l.rows[r.value].createdAt
      ensures r.None? <==> forall id :: id in l.rows ==> l.rows[id].result.outage != outage
    {
      var latest := LatestIds(l.rows, outage);
      if latest != {} {
        var x := Pick(latest);
        return Some(x);
      }
      var any := set id | id in l.rows && l.rows[id].result.outage == outage;
      if any == {} {
        assert forall id :: id in l.rows && l.rows[id].result.outage == outage ==> id in any;
        return None;
      }
      var x := Newest(any);
      assert forall id :: id in l.rows && l.rows[id].result.outage == outage ==> id in any;
      r := Some(x);
    }

    /** ORDER BY created_at DESC LIMIT 1: rows of one time come in any order. */
    method Newest(ids: set<nat>) returns (m: nat)
      requires ids != {} && ids <= l.rows.Keys
      ensures m in ids && forall j :: j in ids ==> l.rows[j].createdAt <= l.rows[m].createdAt
    {
      m := Pick(ids);
      var todo := ids - {m};
      while todo != {}
        invariant todo <= ids && m in ids
        invariant forall j :: j in ids ==> j in todo || l.rows[j].createdAt <= l.rows[m].createdAt
        decreases todo
      {
        var x := Pick(todo);
        if l.rows[x].createdAt > l.rows[m].createdAt { m := x; }
        todo := todo - {x};
      }
    }

    /** Migration 0012: one UPDATE for each outage that has several flagged rows. */
    method Backfill()
      requires l.Valid()
      modifies this
      ensures l == old(l).(rows := Backfilled(old(l).rows)) && l.Valid()
    {
      var duplicated := set id | id in l.rows && |LatestIds(l.rows, l.rows[id].result.outage)| > 1 ::
          l.rows[id].result.outage;
      var todo := duplicated;
      ghost var done := {};
      assert l.rows == FixedRows(l.rows, {});
      while todo != {}
        invariant done !! todo && done + todo == duplicated
        invariant l == old(l).(rows := FixedRows(old(l).rows, done))
      {
        var outage := Pick(todo);
        FixOutage(outage);
        FixedGrows(old(l).rows, done, outage);
        todo, done := todo - {outage}, done + {outage};
      }
      FixedAll(old(l).rows, duplicated);
    }

    /** Demote every flagged row of the outage but the one with the highest id. */
    method FixOutage(outage: string)
      modifies this
      ensures l == old(l).(rows := FixedRows(old(l).rows, {outage}))
    {
      var flagged := LatestIds(l.rows, outage);
      var rows := l.rows;
      if flagged != {} {
        var keep := MaxOf(flagged);
        rows := map id | id in rows :: if id in flagged && id != keep then rows[id].(isLatest := false) else rows[id];
      }
      forall id | id in rows ensures rows[id] == FixedRows(l.rows, {outage})[id] {
        assert id in flagged <==> l.rows[id].isLatest && l.rows[id].result.outage == outage;
      }
      assert rows == FixedRows(l.rows, {outage});
      l := l.(rows := rows);
    }

    method MaxOf(s: set<nat>) returns (m: nat)
      requires s != {}
      ensures m in s && forall j :: j in s ==> j <= m
    {
      m := Pick(s);
      var todo := s - {m};
      while todo != {}
        invariant todo <= s && m in s && forall j :: j in s ==> j in todo || j <= m
        decreases todo
      {
        var x := Pick(todo);
        if x > m { m := x; }
        todo := todo - {x};
      }
    }
  }

  /** The table after the migration has dealt with some outages. */
  function FixedRows(rows: Rows, outages: set<string>): Rows {
    map id | id in rows ::
      if rows[id].result.outage in outages then rows[id].(isLatest := IsHighestLatest(rows, id)) else rows[id]
  }

  lemma FixedGrows(rows: Rows, done: set<string>, outage: string)
    requires outage !in done
    ensures FixedRows(FixedRows(rows, done), {outage}) == FixedRows(rows, done + {outage})
  {
    var mid := FixedRows(rows, done);
    assert LatestIds(mid, outage) == LatestIds(rows, outage);
  }

  lemma FixedAll(rows: Rows, duplicated: set<string>)
    requires duplicated == set id | id in rows && |LatestIds(rows, rows[id].result.outage)| > 1 ::
             rows[id].result.outage
    ensures FixedRows(rows, duplicated) == Backfilled(rows)
  {
    forall id | id in rows ensures FixedRows(rows, duplicated)[id] == Backfilled(rows)[id] {
      if rows[id].result.outage !in duplicated { SmallSetIsHighest(rows, id); }
    }
  }

  lemma SmallSetIsHighest(rows: Rows, id: nat)
    requires id in rows && |LatestIds(rows, rows[id].result.outage)| <= 1
    ensures rows[id] == Backfilled(rows)[id]
  {
    var s := LatestIds(rows, rows[id].result.outage);
    if rows[id].isLatest {
      assert id in s;
      SubsetOfSameSize({id}, s);
    }
  }
}
