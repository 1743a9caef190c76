/** SLA settlement: the calculator, the ledger of stored results, the payments made for
    them, and the dashboard aggregate. */
module Settlement {
  import opened Common

  datatype Verdict = Met | Violated
  datatype Kind = Reward | Penalty
  datatype Rating = Exceptional | Excellent | Good | Poor

  /** One severity's configuration; the schema keeps all three numbers non-negative. */
  datatype SevConfig = SevConfig(threshold: nat, penaltyPerMinute: nat, rewardBase: nat)

  datatype Result = Result(outage: string, verdict: Verdict, mttr: int, threshold: nat,
                           amount: int, kind: Kind, rating: Rating)

  // ---------------------------------------------------------------------------
  // SLACalculator.calculate
  // ---------------------------------------------------------------------------

  function LowerChar(c: char): char {
    if 'A' <= c <= 'Z' then ((c as int) - ('A' as int) + ('a' as int)) as char else c
  }

  function Lower(s: string): string {
    if s == "" then "" else [LowerChar(s[0])] + Lower(s[1..])
  }

  function Assess(outage: string, mttr: int, c: SevConfig): Result {
    if mttr > c.threshold then
      Result(outage, Violated, mttr, c.threshold, -((mttr - c.threshold) * c.penaltyPerMinute), Penalty, Poor)
    else
      var ratio := if c.threshold == 0 then 0 else (mttr * 100) / c.threshold;
      var (multiplier, rating) :=
        if ratio < 50 then (200, Exceptional) else if ratio < 75 then (150, Excellent) else (100, Good);
      Result(outage, Met, mttr, c.threshold, (c.rewardBase * multiplier) / 100, Reward, rating)
  }

  /** None is the calculator's "unknown severity" error. */
  function Calculate(config: map<string, SevConfig>, outage: string, severity: string, mttr: int): Option<Result> {
    var key := Lower(severity);
    if key !in config then None else Some(Assess(outage, mttr, config[key]))
  }

  lemma CalculateKeepsOutage(config: map<string, SevConfig>, outage: string, severity: string, mttr: int)
    ensures var r := Calculate(config, outage, severity, mttr); r.Some? ==> r.value.outage == outage
  {
  }

  lemma {:induction false} LowerAt(s: string, i: nat)
    requires i < |s|
    ensures |Lower(s)| == |s|
    ensures if 'A' <= s[i] <= 'Z' then Lower(s)[i] as int == s[i] as int + 32 else Lower(s)[i] == s[i]
  {
    if i > 0 {
      LowerAt(s[1..], i - 1);
    } else if |s| > 1 {
      LowerAt(s[1..], 0);
    }
  }

  lemma LowerOfLower(s: string)
    ensures Lower(Lower(s)) == Lower(s)
  {
    if s != "" {
      LowerAt(s, 0);
      LowerAt(Lower(s), 0);
      forall i | 0 <= i < |s| ensures Lower(Lower(s))[i] == Lower(s)[i] {
        LowerAt(s, i);
        LowerAt(Lower(s), i);
      }
    }
  }

  /** The severity is looked up in lower case, whatever its case was; only a severity without a
      configuration is an error. */
  lemma SeverityCaseIsIgnored(config: map<string, SevConfig>, outage: string, severity: string, mttr: int)
    ensures Calculate(config, outage, Lower(severity), mttr) == Calculate(config, outage, severity, mttr)
    ensures Calculate(config, outage, severity, mttr).None? <==> Lower(severity) !in config
    ensures Lower(severity) in config ==>
              var r, c := Calculate(config, outage, severity, mttr).value, config[Lower(severity)];
              && r.outage == outage && r.amount == Amount(mttr, c)
              && (r.kind == Penalty <==> mttr > c.threshold) && (r.verdict == Violated <==> mttr > c.threshold)
  {
    LowerOfLower(severity);
    if Lower(severity) in config { AssessAmount(outage, mttr, config[Lower(severity)]); }
  }

  lemma MulLe(a: int, b: int, k: int)
    requires a <= b && k >= 0
    ensures a * k <= b * k
  {
    assert (b - a) * k >= 0;
    assert b * k == (b - a) * k + a * k;
  }

  /** The rounded percentage is below k exactly when the exact ratio is. */
  lemma RatioBelow(n: int, t: int, k: int)
    requires t > 0
    ensures n / t < k <==> n < k * t
  {
    var q := n / t;
    assert n == q * t + n % t;
    if q < k {
      MulLe(q + 1, k, t);
    } else {
      MulLe(k, q, t);
    }
  }

  /** What the tiers come to without percentages or rounding of the ratio: repairs in under
      half the threshold earn double, in under three quarters half as much again. */
  function Amount(mttr: int, c: SevConfig): int {
    if mttr > c.threshold then -((mttr - c.threshold) * c.penaltyPerMinute)
    else if c.threshold == 0 || 2 * mttr < c.threshold then 2 * c.rewardBase
    else if 4 * mttr < 3 * c.threshold then c.rewardBase + c.rewardBase / 2
    else c.rewardBase
  }

  lemma AssessAmount(outage: string, mttr: int, c: SevConfig)
    ensures var r := Assess(outage, mttr, c);
            && r.amount == Amount(mttr, c)
            && (r.kind == Penalty <==> mttr > c.threshold) && (r.verdict == Violated <==> mttr > c.threshold)
            && (if r.kind == Penalty then r.amount <= 0 else c.rewardBase <= r.amount <= 2 * c.rewardBase)
            && (r.rating == Poor <==> mttr > c.threshold)
            && (r.rating == Exceptional <==> mttr <= c.threshold && (c.threshold == 0 || 2 * mttr < c.threshold))
            && (r.rating == Good <==> mttr <= c.threshold && c.threshold > 0 && 4 * mttr >= 3 * c.threshold)
            && r.outage == outage && r.mttr == mttr && r.threshold == c.threshold
  {
    if mttr > c.threshold {
      MulLe(0, mttr - c.threshold, c.penaltyPerMinute);
    } else if c.threshold > 0 {
      RatioBelow(mttr * 100, c.threshold, 50);
      RatioBelow(mttr * 100, c.threshold, 75);
    }
  }

  /** A longer repair never pays more. */
  lemma AmountFallsWithMttr(outage: string, m: int, n: int, c: SevConfig)
    requires m <= n
    ensures Assess(outage, n, c).amount <= Assess(outage, m, c).amount
  {
    AssessAmount(outage, m, c);
    AssessAmount(outage, n, c);
    MulLe(m - c.threshold, n - c.threshold, c.penaltyPerMinute);
  }

  /** A more generous threshold never pays less. */
  lemma AmountRisesWithThreshold(outage: string, m: int, c: SevConfig, d: SevConfig)
    requires c.threshold <= d.threshold && c.penaltyPerMinute == d.penaltyPerMinute && c.rewardBase == d.rewardBase
    ensures Assess(outage, m, c).amount <= Assess(outage, m, d).amount
  {
    AssessAmount(outage, m, c);
    AssessAmount(outage, m, d);
    MulLe(m - d.threshold, m - c.threshold, c.penaltyPerMinute);
  }

  // ---------------------------------------------------------------------------
  // Ledger and payments
  // ---------------------------------------------------------------------------

  /** amount is the absolute value of the settled result's amount. */
  datatype Payment = Payment(id: string, kind: Kind, amount: int, outage: string, result: nat)

  /** Stored results carry consecutive ids: result number i is ledger[i]. */
  datatype Books = Books(ledger: seq<Result>, payments: seq<Payment>)

  function Abs(n: int): nat {
    if n < 0 then -n else n
  }

  /** The payment already recorded for a result, if any (get_by_sla_result). */
  function FindPayment(ps: seq<Payment>, result: nat): Option<Payment> {
    if ps == [] then None
    else if ps[0].result == result then Some(ps[0])
    else FindPayment(ps[1..], result)
  }

  /** The unique constraints of the payments table: primary key, one payment per result,
      and one payment per (outage, type). */
  predicate Accepts(ps: seq<Payment>, p: Payment) {
    forall i :: 0 <= i < |ps| ==>
      ps[i].id != p.id && ps[i].result != p.result && !(ps[i].outage == p.outage && ps[i].kind == p.kind)
  }

  datatype Settled = Existing(p: Payment) | Created(p: Payment) | Rejected

  function PaymentFor(id: string, outage: string, result: nat, r: Result): Payment {
    Payment(id, r.kind, Abs(r.amount), outage, result)
  }

  /** create_for_sla_result, for a stored result and a freshly generated payment id. */
  function Settle(b: Books, id: string, outage: string, result: nat): (Books, Settled)
    requires result < |b.ledger|
  {
    match FindPayment(b.payments, result)
    case Some(p) => (b, Existing(p))
    case None =>
      var p := PaymentFor(id, outage, result, b.ledger[result]);
      if Accepts(b.payments, p) then (b.(payments := b.payments + [p]), Created(p)) else (b, Rejected)
  }

  function Store(b: Books, r: Result): Books {
    b.(ledger := b.ledger + [r])
  }

  /** A run: store what the calculator returns, or settle some result that is stored. */
  datatype Op = StoreOp(outage: string, severity: string, mttr: int) | SettleOp(id: string, outage: string, result: nat)

  function Step(config: map<string, SevConfig>, b: Books, op: Op): Books {
    match op
    case StoreOp(o, s, m) => (match Calculate(config, o, s, m) case None => b case Some(r) => Store(b, r))
    case SettleOp(id, o, i) => if i < |b.ledger| then Settle(b, id, o, i).0 else b
  }

  function Run(config: map<string, SevConfig>, ops: seq<Op>): Books {
    if ops == [] then Books([], []) else Step(config, Run(config, ops[..|ops| - 1]), ops[|ops| - 1])
  }

  // ---------------------------------------------------------------------------
  // Conservation
  // ---------------------------------------------------------------------------

  function Signed(p: Payment): int {
    if p.kind == Reward then p.amount else -p.amount
  }

  /** Sum of reward payments minus sum of penalty payments. */
  function NetPaid(ps: seq<Payment>): int {
    if ps == [] then 0 else NetPaid(ps[..|ps| - 1]) + Signed(ps[|ps| - 1])
  }

  predicate IsSettled(ps: seq<Payment>, result: nat) {
    exists i :: 0 <= i < |ps| && ps[i].result == result
  }

  /** Sum of the signed amounts of the settled results among the first n. */
  ghost function NetSettled(b: Books, n: nat): int
    requires n <= |b.ledger|
  {
    if n == 0 then 0
    else NetSettled(b, n - 1) + if IsSettled(b.payments, n - 1) then b.ledger[n - 1].amount else 0
  }

  datatype Kpi = Kpi(outages: nat, violations: nat, rewards: int, penalties: int, net: int)

  function Rewards(l: seq<Result>): int {
    if l == [] then 0 else Rewards(l[..|l| - 1]) + if l[|l| - 1].kind == Reward then l[|l| - 1].amount else 0
  }

  function Penalties(l: seq<Result>): int {
    if l == [] then 0 else Penalties(l[..|l| - 1]) + if l[|l| - 1].kind == Penalty then Abs(l[|l| - 1].amount) else 0
  }

  function Violations(l: seq<Result>): nat {
    if l == [] then 0 else Violations(l[..|l| - 1]) + if l[|l| - 1].verdict == Violated then 1 else 0
  }

  /** aggregate_dashboard_kpis without filters. */
  function DashboardKpis(b: Books): Kpi {
    var r, p := Rewards(b.ledger), Penalties(b.ledger);
    Kpi(|b.ledger|, Violations(b.ledger), r, p, r - p)
  }

  /** How the aggregate reacts to one more result: it counts the result, counts a violation, and
      adds its amount to the side it belongs to. */
  lemma KpisGrow(b: Books, r: Result)
    requires SignOk(r)
    ensures DashboardKpis(Books([], b.payments)) == Kpi(0, 0, 0, 0, 0)
    ensures var k, k' := DashboardKpis(b), DashboardKpis(Store(b, r));
            && k'.outages == k.outages + 1
            && k'.violations == k.violations + (if r.verdict == Violated then 1 else 0)
            && k'.rewards == k.rewards + Max(0, r.amount)
            && k'.penalties == k.penalties + Max(0, -r.amount)
            && k'.net == k.net + r.amount
  {
    assert (b.ledger + [r])[..|b.ledger|] == b.ledger;
  }

  /** Calculator results have a sign that agrees with their kind. */
  predicate SignOk(r: Result) {
    if r.kind == Reward then r.amount >= 0 else r.amount <= 0
  }

  predicate BooksOk(b: Books) {
    && (forall i :: 0 <= i < |b.ledger| ==> SignOk(b.ledger[i]))
    && (forall i :: 0 <= i < |b.payments| ==>
          var p := b.payments[i];
          p.result < |b.ledger| && p.kind == b.ledger[p.result].kind && p.amount == Abs(b.ledger[p.result].amount))
    && (forall i, j :: 0 <= i < j < |b.payments| ==> b.payments[i].result != b.payments[j].result)
  }

  lemma {:induction false} FindPaymentFinds(ps: seq<Payment>, result: nat)
    ensures FindPayment(ps, result).Some? <==> IsSettled(ps, result)
    ensures FindPayment(ps, result).Some? ==>
              && FindPayment(ps, result).value in ps
              && FindPayment(ps, result).value.result == result
  {
    if ps != [] {
      FindPaymentFinds(ps[1..], result);
      if IsSettled(ps, result) && ps[0].result != result {
        var i :| 0 <= i < |ps| && ps[i].result == result;
        assert ps[1..][i - 1].result == result;
      }
      if IsSettled(ps[1..], result) {
        var i :| 0 <= i < |ps[1..]| && ps[1..][i].result == result;
        assert ps[i + 1].result == result;
      }
    }
  }

  lemma StepKeepsBooks(config: map<string, SevConfig>, b: Books, op: Op)
    requires BooksOk(b)
    ensures BooksOk(Step(config, b, op))
  {
    match op
    case StoreOp(o, s, m) =>
      if Lower(s) in config { AssessAmount(o, m, config[Lower(s)]); }
    case SettleOp(id, o, i) =>
      if i < |b.ledger| { FindPaymentFinds(b.payments, i); }
  }

  lemma {:induction false} RunKeepsBooks(config: map<string, SevConfig>, ops: seq<Op>)
    ensures BooksOk(Run(config, ops))
  {
    if ops != [] {
      RunKeepsBooks(config, ops[..|ops| - 1]);
      StepKeepsBooks(config, Run(config, ops[..|ops| - 1]), ops[|ops| - 1]);
    }
  }

  /** The unique constraints of the payments table. */
  predicate Unique(ps: seq<Payment>) {
    forall i, j :: 0 <= i < j < |ps| ==>
      ps[i].id != ps[j].id && ps[i].result != ps[j].result && (ps[i].outage != ps[j].outage || ps[i].kind != ps[j].kind)
  }

  lemma {:induction false} RunKeepsUnique(config: map<string, SevConfig>, ops: seq<Op>)
    ensures Unique(Run(config, ops).payments)
  {
    hide Calculate;
    if ops != [] { RunKeepsUnique(config, ops[..|ops| - 1]); }
  }

  /** The ledger is exactly what the calculator returned, in the order in which it was stored. */
  lemma {:induction false} LedgerIsCalculated(config: map<string, SevConfig>, ops: seq<Op>)
    ensures Run(config, ops).ledger == Calculated(config, ops)
  {
    if ops != [] { LedgerIsCalculated(config, ops[..|ops| - 1]); }
  }

  function Calculated(config: map<string, SevConfig>, ops: seq<Op>): seq<Result> {
    if ops == [] then []
    else
      var op := ops[|ops| - 1];
      Calculated(config, ops[..|ops| - 1]) +
      if op.StoreOp? && Lower(op.severity) in config
      then [Assess(op.outage, op.mttr, config[Lower(op.severity)])] else []
  }

  /** Removing the last payment takes exactly its result out of the settled ones. */
  lemma {:induction false} NetSettledDrop(b: Books, n: nat)
    requires BooksOk(b) && b.payments != [] && n <= |b.ledger|
    ensures var p := b.payments[|b.payments| - 1];
            var b0 := b.(payments := b.payments[..|b.payments| - 1]);
            NetSettled(b, n) == NetSettled(b0, n) + if p.result < n then Signed(p) else 0
  {
    var p := b.payments[|b.payments| - 1];
    var b0 := b.(payments := b.payments[..|b.payments| - 1]);
    if n > 0 {
      NetSettledDrop(b, n - 1);
      assert IsSettled(b.payments, n - 1) <==> IsSettled(b0.payments, n - 1) || p.result == n - 1 by {
        if IsSettled(b0.payments, n - 1) {
          var i :| 0 <= i < |b0.payments| && b0.payments[i].result == n - 1;
          assert b.payments[i].result == n - 1;
        }
      }
    }
  }

  /** What has been paid out, net, is the signed total of the results that were settled. */
  lemma {:induction false} PaymentsConserve(b: Books)
    requires BooksOk(b)
    ensures NetPaid(b.payments) == NetSettled(b, |b.ledger|)
    decreases |b.payments|
  {
    if b.payments == [] {
      NothingSettled(b, |b.ledger|);
    } else {
      var b0 := b.(payments := b.payments[..|b.payments| - 1]);
      PaymentsConserve(b0);
      NetSettledDrop(b, |b.ledger|);
    }
  }

  lemma {:induction false} NothingSettled(b: Books, n: nat)
    requires b.payments == [] && n <= |b.ledger|
    ensures NetSettled(b, n) == 0
  {
    if n > 0 { NothingSettled(b, n - 1); }
  }

  /** Over every run of storing and settling, in any order and with any repetition: no result
      is paid twice, and the net of all payments is the signed total of the settled results. */
  lemma SettlementConserves(config: map<string, SevConfig>, ops: seq<Op>)
    ensures var b := Run(config, ops);
            && NetPaid(b.payments) == NetSettled(b, |b.ledger|)
            && forall i, j :: 0 <= i < j < |b.payments| ==> b.payments[i].result != b.payments[j].result
  {
    RunKeepsBooks(config, ops);
    PaymentsConserve(Run(config, ops));
  }

  /** Sum of the signed amounts of the results among the first n that have no payment. */
  ghost function NetUnsettled(b: Books, n: nat): int
    requires n <= |b.ledger|
  {
    if n == 0 then 0
    else NetUnsettled(b, n - 1) + if IsSettled(b.payments, n - 1) then 0 else b.ledger[n - 1].amount
  }

  lemma {:induction false} NetOfLedger(b: Books, n: nat)
    requires BooksOk(b) && n <= |b.ledger|
    ensures NetSettled(b, n) + NetUnsettled(b, n) == Rewards(b.ledger[..n]) - Penalties(b.ledger[..n])
  {
    if n > 0 {
      NetOfLedger(b, n - 1);
      assert b.ledger[..n][..n - 1] == b.ledger[..n - 1];
    }
  }

  /** After every run the dashboard's net payout is what has been paid out, net, plus the
      signed total of the results that are still without a payment. */
  lemma DashboardAccounts(config: map<string, SevConfig>, ops: seq<Op>)
    ensures var b := Run(config, ops);
            DashboardKpis(b).net == NetPaid(b.payments) + NetUnsettled(b, |b.ledger|)
  {
    var b := Run(config, ops);
    RunKeepsBooks(config, ops);
    SettlementConserves(config, ops);
    NetOfLedger(b, |b.ledger|);
    assert b.ledger[..|b.ledger|] == b.ledger;
  }

  ghost predicate AllSettled(b: Books) {
    forall i :: 0 <= i < |b.ledger| ==> IsSettled(b.payments, i)
  }

  lemma {:induction false} NothingUnsettled(b: Books, n: nat)
    requires AllSettled(b) && n <= |b.ledger|
    ensures NetUnsettled(b, n) == 0
  {
    if n > 0 { NothingUnsettled(b, n - 1); }
  }

  /** Once every stored result is settled, the payments net to the dashboard's net payout. */
  lemma SettledRunMatchesDashboard(config: map<string, SevConfig>, ops: seq<Op>)
    requires AllSettled(Run(config, ops))
    ensures NetPaid(Run(config, ops).payments) == DashboardKpis(Run(config, ops)).net
  {
    DashboardAccounts(config, ops);
    NothingUnsettled(Run(config, ops), |Run(config, ops).ledger|);
  }

  // ---------------------------------------------------------------------------
  // When a result can be settled at all
  // ---------------------------------------------------------------------------

  /** Payments were made under the outage of the result they settle, as both callers do. */
  predicate OwnOutages(b: Books) {
    forall i :: 0 <= i < |b.payments| && b.payments[i].result < |b.ledger| ==>
      b.payments[i].outage == b.ledger[b.payments[i].result].outage
  }

  /** Both callers of create_for_sla_result pass the outage of the result itself. */
  predicate OwnOp(b: Books, op: Op) {
    op.SettleOp? && op.result < |b.ledger| ==> op.outage == b.ledger[op.result].outage
  }

  predicate OwnRun(config: map<string, SevConfig>, ops: seq<Op>) {
    ops == [] || (OwnRun(config, ops[..|ops| - 1]) && OwnOp(Run(config, ops[..|ops| - 1]), ops[|ops| - 1]))
  }

  lemma {:induction false} OwnRunKeepsOutages(config: map<string, SevConfig>, ops: seq<Op>)
    requires OwnRun(config, ops)
    ensures OwnOutages(Run(config, ops))
  {
    hide Calculate;
    if ops != [] {
      OwnRunKeepsOutages(config, ops[..|ops| - 1]);
      RunKeepsBooks(config, ops[..|ops| - 1]);
    }
  }

  /** Some settled result has the outage and the kind of this one. */
  ghost predicate Blocked(b: Books, result: nat)
    requires result < |b.ledger|
  {
    exists j :: 0 <= j < |b.ledger| && IsSettled(b.payments, j) && SameOutageAndKind(b.ledger[j], b.ledger[result])
  }

  predicate SameOutageAndKind(r: Result, s: Result) {
    r.outage == s.outage && r.kind == s.kind
  }

  /** The constraints accept the payment of a result exactly when nothing blocks it. */
  lemma AcceptsIff(b: Books, id: string, result: nat)
    requires BooksOk(b) && OwnOutages(b) && result < |b.ledger|
    requires forall i :: 0 <= i < |b.payments| ==> b.payments[i].id != id
    ensures Accepts(b.payments, PaymentFor(id, b.ledger[result].outage, result, b.ledger[result])) <==>
              !Blocked(b, result)
  {
    var p := PaymentFor(id, b.ledger[result].outage, result, b.ledger[result]);
    if Blocked(b, result) {
      var j :| 0 <= j < |b.ledger| && IsSettled(b.payments, j) && SameOutageAndKind(b.ledger[j], b.ledger[result]);
      var i :| 0 <= i < |b.payments| && b.payments[i].result == j;
      assert b.payments[i].outage == p.outage && b.payments[i].kind == p.kind;
    } else {
      forall i | 0 <= i < |b.payments|
        ensures b.payments[i].result != result && !(b.payments[i].outage == p.outage && b.payments[i].kind == p.kind)
      {
        var j := b.payments[i].result;
        assert IsSettled(b.payments, j);
        assert !SameOutageAndKind(b.ledger[j], b.ledger[result]);
      }
    }
  }

  /** Settling returns the payment of a settled result; an unsettled one gets its payment exactly
      when no settled result of the same outage has the same kind, because the (outage, type)
      constraint refuses every later one. */
  lemma SettlesIff(b: Books, id: string, result: nat)
    requires BooksOk(b) && OwnOutages(b) && result < |b.ledger|
    requires forall i :: 0 <= i < |b.payments| ==> b.payments[i].id != id
    ensures var s := Settle(b, id, b.ledger[result].outage, result).1;
            && (s.Existing? <==> IsSettled(b.payments, result))
            && (s.Created? <==> !Blocked(b, result))
  {
    hide BooksOk, OwnOutages, Accepts, FindPayment;
    FindPaymentFinds(b.payments, result);
    AcceptsIff(b, id, result);
  }

  /** The same of the books that any run of the callers leaves behind. */
  lemma RunSettlesIff(config: map<string, SevConfig>, ops: seq<Op>, id: string, result: nat)
    requires OwnRun(config, ops) && result < |Run(config, ops).ledger|
    requires forall i :: 0 <= i < |Run(config, ops).payments| ==> Run(config, ops).payments[i].id != id
    ensures var b := Run(config, ops);
            var s := Settle(b, id, b.ledger[result].outage, result).1;
            && (s.Existing? <==> IsSettled(b.payments, result))
            && (s.Created? <==> !Blocked(b, result))
  {
    RunKeepsBooks(config, ops);
    OwnRunKeepsOutages(config, ops);
    SettlesIff(Run(config, ops), id, result);
  }

  /** A result that is blocked once is never paid, whatever is stored and settled later. */
  lemma {:induction false} BlockedForEver(config: map<string, SevConfig>, ops: seq<Op>, n: nat, j: nat, result: nat)
    requires OwnRun(config, ops) && n <= |ops| && j < |Run(config, ops[..n]).ledger|
             && result < |Run(config, ops[..n]).ledger|
    requires var b := Run(config, ops[..n]);
             && IsSettled(b.payments, j) && !IsSettled(b.payments, result)
             && SameOutageAndKind(b.ledger[j], b.ledger[result])
    ensures var b := Run(config, ops);
            && j < |b.ledger| && result < |b.ledger| && SameOutageAndKind(b.ledger[j], b.ledger[result])
            && IsSettled(b.payments, j) && !IsSettled(b.payments, result)
    decreases |ops|
  {
    hide Run;
    if n == |ops| {
      assert ops[..n] == ops;
    } else {
      var init := ops[..|ops| - 1];
      assert init[..n] == ops[..n];
      BlockedForEver(config, init, n, j, result);
      RunKeepsBooks(config, init);
      OwnRunKeepsOutages(config, init);
      RunUnfolds(config, ops);
      BlockedStep(config, Run(config, init), ops[|ops| - 1], j, result);
    }
  }

  lemma RunUnfolds(config: map<string, SevConfig>, ops: seq<Op>)
    requires ops != []
    ensures Run(config, ops) == Step(config, Run(config, ops[..|ops| - 1]), ops[|ops| - 1])
  {
  }

  lemma BlockedStep(config: map<string, SevConfig>, b: Books, op: Op, j: nat, result: nat)
    requires BooksOk(b) && OwnOutages(b) && OwnOp(b, op) && j < |b.ledger| && result < |b.ledger|
    requires IsSettled(b.payments, j) && !IsSettled(b.payments, result)
             && SameOutageAndKind(b.ledger[j], b.ledger[result])
    ensures var b' := Step(config, b, op);
            && j < |b'.ledger| && result < |b'.ledger| && SameOutageAndKind(b'.ledger[j], b'.ledger[result])
            && IsSettled(b'.payments, j) && !IsSettled(b'.payments, result)
  {
    hide Calculate;
    var i :| 0 <= i < |b.payments| && b.payments[i].result == j;
    var b' := Step(config, b, op);
    assert b'.payments[i].result == j;
    if op.SettleOp? && op.result == result { FindPaymentFinds(b.payments, result); }
  }

  /** Two results of one outage and one kind are stored and the first is settled: the second is
      refused its payment. */
  lemma SecondOfAKindIsRejected()
    ensures var config: map<string, SevConfig> := map["high" := SevConfig(60, 10, 100)];
            var ops := [StoreOp("o", "high", 20), StoreOp("o", "high", 50), SettleOp("pay_1", "o", 0)];
            && OwnRun(config, ops) && |Run(config, ops).ledger| == 2
            && Settle(Run(config, ops), "pay_2", "o", 1).1 == Rejected
  {
    hide Calculate, Run, OwnRun;
    var config: map<string, SevConfig> := map["high" := SevConfig(60, 10, 100)];
    var r0, r1 := Assess("o", 20, config["high"]), Assess("o", 50, config["high"]);
    HighCalculates(config, "o", 20);
    HighCalculates(config, "o", 50);
    RunStarts(config);
    OwnStep(config, [], StoreOp("o", "high", 20), Books([r0], []));
    var one := [] + [StoreOp("o", "high", 20)];
    OwnStep(config, one, StoreOp("o", "high", 50), Books([r0, r1], []));
    var two := one + [StoreOp("o", "high", 50)];
    var paid := Books([r0, r1], [PaymentFor("pay_1", "o", 0, r0)]);
    OwnStep(config, two, SettleOp("pay_1", "o", 0), paid);
    assert two + [SettleOp("pay_1", "o", 0)] ==
           [StoreOp("o", "high", 20), StoreOp("o", "high", 50), SettleOp("pay_1", "o", 0)];
    assert FindPayment(paid.payments, 1) == FindPayment(paid.payments[1..], 1);
    assert paid.payments[0].kind == PaymentFor("pay_2", "o", 1, r1).kind;
  }

  lemma HighCalculates(config: map<string, SevConfig>, outage: string, mttr: int)
    requires "high" in config
    ensures Calculate(config, outage, "high", mttr) == Some(Assess(outage, mttr, config["high"]))
  {
    assert Lower("high") == "high" by {
      assert Lower("h") == "h";
      assert "high"[1..] == "igh" && "igh"[1..] == "gh" && "gh"[1..] == "h" && "h"[1..] == "";
    }
  }

  lemma RunStarts(config: map<string, SevConfig>)
    ensures Run(config, []) == Books([], []) && OwnRun(config, [])
  {
  }

  lemma OwnStep(config: map<string, SevConfig>, ops: seq<Op>, op: Op, b: Books)
    requires OwnRun(config, ops) && OwnOp(Run(config, ops), op) && Step(config, Run(config, ops), op) == b
    ensures OwnRun(config, ops + [op]) && Run(config, ops + [op]) == b
  {
    assert (ops + [op])[..|ops|] == ops;
  }

  datatype Answer = MissingId | Answer(outcome: Settled)

  /** The two repositories over one database. */
  class Repositories {
    var ledger: seq<Result>
    var payments: seq<Payment>

    function Value(): Books
      reads this
    {
      Books(ledger, payments)
    }

    constructor ()
      ensures Value() == Books([], [])
    {
      ledger, payments := [], [];
    }

    method StoreResult(r: Result) returns (id: nat)
      modifies this
      ensures id == |old(ledger)| && Value() == Store(old(Value()), r)
    {
      id := |ledger|;
      ledger := ledger + [r];
    }

    method CreateForSlaResult(id: string, outage: string, result: Option<nat>) returns (a: Answer)
      requires result.Some? ==> result.value < |ledger|
      modifies this
      ensures a == MissingId <==> result.None?
      ensures result.None? ==> Value() == old(Value())
      ensures result.Some? ==> (Value(), a.outcome) == Settle(old(Value()), id, outage, result.value)
    {
      if result.None? {
        return MissingId;
      }
      var existing := FindPayment(payments, result.value);
      if existing.Some? {
        return Answer(Existing(existing.value));
      }
      var r := ledger[result.value];
      var p := Payment(id, r.kind, if r.amount < 0 then -r.amount else r.amount, outage, result.value);
      if !Accepts(payments, p) {
        return Answer(Rejected);
      }
      payments := payments + [p];
      a := Answer(Created(p));
    }
  }
}
