/** Job retention: the standard sweep with one window per status, and the audit-critical
    sweep, both deleting in batches. */
module Retention {
  import opened Common

  type Id = int

  datatype Status = Pending | Started | Success | Failure | Revoked | Quarantined | DeadLetter

  datatype Job = Job(status: Status, finishedAt: Option<int>, underInvestigation: bool,
                     underDispute: bool, auditCritical: bool)

  type Jobs = map<Id, Job>

  /** JobStatus(value): None for a value that names no status. */
  function StatusOf(value: string): Option<Status> {
    if value == "pending" then Some(Pending)
    else if value == "started" then Some(Started)
    else if value == "success" then Some(Success)
    else if value == "failure" then Some(Failure)
    else if value == "revoked" then Some(Revoked)
    else if value == "quarantined" then Some(Quarantined)
    else if value == "dead_letter" then Some(DeadLetter)
    else None
  }

  const DAY := 86400

  /** A job that has not finished has no finish time, and no comparison with it holds. */
  predicate FinishedBefore(j: Job, cutoff: int) {
    j.finishedAt.Some? && j.finishedAt.value < cutoff
  }

  predicate Unprotected(j: Job) {
    !j.underInvestigation && !j.underDispute
  }

  /** _build_base_query */
  function Eligible(jobs: Jobs, status: Status, cutoff: int): set<Id> {
    set id |
      && id in jobs && jobs[id].status == status && FinishedBefore(jobs[id], cutoff)
      && Unprotected(jobs[id]) && !jobs[id].auditCritical
  }

  function AuditEligible(jobs: Jobs, cutoff: int): set<Id> {
    set id | id in jobs && jobs[id].auditCritical && FinishedBefore(jobs[id], cutoff) && Unprotected(jobs[id])
  }

  /** One retention window: a status value and a number of days. */
  datatype Window = Window(value: string, days: int)

  function Cutoff(now: int, days: int): int {
    now - days * DAY
  }

  /** A configuration is a dictionary: status values do not repeat. */
  predicate IsConfig(ws: seq<Window>) {
    forall i, j :: 0 <= i < j < |ws| ==> ws[i].value != ws[j].value
  }

  /** Everything the standard sweep is to delete, said directly. */
  function Expired(jobs: Jobs, ws: seq<Window>, now: int): set<Id> {
    set id | id in jobs && Unprotected(jobs[id]) && !jobs[id].auditCritical && Covered(jobs[id], ws, now)
  }

  predicate Covered(j: Job, ws: seq<Window>, now: int) {
    exists i :: 0 <= i < |ws| && StatusOf(ws[i].value) == Some(j.status) && FinishedBefore(j, Cutoff(now, ws[i].days))
  }

  /** What one window takes from a table. */
  function WindowIds(jobs: Jobs, w: Window, now: int): set<Id> {
    if StatusOf(w.value).None? then {} else Eligible(jobs, StatusOf(w.value).value, Cutoff(now, w.days))
  }

  /** The numbers that a dry run reports, per known status value. */
  function DryCounts(jobs: Jobs, ws: seq<Window>, now: int): map<string, nat> {
    if ws == [] then map[]
    else
      var w := ws[|ws| - 1];
      var rest := DryCounts(jobs, ws[..|ws| - 1], now);
      if StatusOf(w.value).None? then rest else rest[w.value := |WindowIds(jobs, w, now)|]
  }

  /** The jobs that the windows take together, one window after the other. */
  function Taken(jobs: Jobs, ws: seq<Window>, now: int): set<Id> {
    if ws == [] then {} else Taken(jobs, ws[..|ws| - 1], now) + WindowIds(jobs, ws[|ws| - 1], now)
  }

  lemma StatusOfInjective(v: string, w: string)
    requires StatusOf(v).Some? && StatusOf(v) == StatusOf(w)
    ensures v == w
  {
  }

  lemma {:induction false} TakenIsExpired(jobs: Jobs, ws: seq<Window>, now: int)
    ensures Taken(jobs, ws, now) == Expired(jobs, ws, now)
  {
    if ws != [] { TakenIsExpired(jobs, ws[..|ws| - 1], now); }
    forall id ensures id in Taken(jobs, ws, now) <==> id in Expired(jobs, ws, now) {
      if id in jobs && ws != [] { CoveredStep(jobs[id], ws, now); }
    }
  }

  lemma CoveredStep(j: Job, ws: seq<Window>, now: int)
    requires ws != []
    ensures var w := ws[|ws| - 1];
            Covered(j, ws, now) <==>
              || Covered(j, ws[..|ws| - 1], now)
              || (StatusOf(w.value) == Some(j.status) && FinishedBefore(j, Cutoff(now, w.days)))
  {
    var init := ws[..|ws| - 1];
    if Covered(j, ws, now) {
      var i :| 0 <= i < |ws| && StatusOf(ws[i].value) == Some(j.status) && FinishedBefore(j, Cutoff(now, ws[i].days));
      if i < |init| { assert init[i] == ws[i]; }
    }
    if Covered(j, init, now) {
      var i :| 0 <= i < |init| && StatusOf(init[i].value) == Some(j.status)
          && FinishedBefore(j, Cutoff(now, init[i].days));
      assert ws[i] == init[i];
    }
  }

  /** Earlier windows take nothing from a later one: their statuses differ. */
  lemma {:induction false} WindowsAreDisjoint(jobs: Jobs, ws: seq<Window>, now: int, w: Window)
    requires forall i :: 0 <= i < |ws| ==> ws[i].value != w.value
    ensures Taken(jobs, ws, now) !! WindowIds(jobs, w, now)
  {
    if ws != [] {
      var v := ws[|ws| - 1];
      WindowsAreDisjoint(jobs, ws[..|ws| - 1], now, w);
      if StatusOf(v.value).Some? && StatusOf(v.value) == StatusOf(w.value) { StatusOfInjective(v.value, w.value); }
    }
  }

  lemma RemainingEligible(jobs: Jobs, gone: set<Id>, w: Window, now: int)
    ensures WindowIds(jobs - gone, w, now) == WindowIds(jobs, w, now) - gone
  {
  }

  lemma NothingEligible(w: Window, now: int)
    ensures WindowIds(map[], w, now) == {}
  {
  }

  lemma RemainingReached(jobs: Jobs, gone: set<Id>, w: Window, now: int, dryRun: bool, batchSize: nat)
    requires dryRun ==> gone == {}
    requires gone !! WindowIds(Reached(jobs, batchSize), w, now)
    ensures WindowIds(Reached(jobs - gone, batchSize), w, now) == WindowIds(Reached(jobs, batchSize), w, now)
    ensures WindowIds(Reported(jobs - gone, dryRun, batchSize), w, now) ==
              WindowIds(Reported(jobs, dryRun, batchSize), w, now)
  {
    hide WindowIds;
    RemainingEligible(jobs, gone, w, now);
    if dryRun { assert jobs - gone == jobs; }
  }

  function ValueOf(s: Status): string {
    match s
    case Pending => "pending"
    case Started => "started"
    case Success => "success"
    case Failure => "failure"
    case Revoked => "revoked"
    case Quarantined => "quarantined"
    case DeadLetter => "dead_letter"
  }

  /** A window is for a status exactly when it carries that status's value. */
  lemma StatusOfIff(value: string, s: Status)
    ensures StatusOf(value) == Some(s) <==> value == ValueOf(s)
  {
  }

  /** What the standard sweep deletes, said on the columns: finished jobs that nobody protects and
      that are not audit-critical, older than the days of a window for their status. */
  lemma ExpiredIff(jobs: Jobs, ws: seq<Window>, now: int, id: Id)
    requires id in jobs
    ensures id in Expired(jobs, ws, now) <==>
              && !jobs[id].underInvestigation && !jobs[id].underDispute && !jobs[id].auditCritical
              && jobs[id].finishedAt.Some?
              && exists i :: 0 <= i < |ws| && ws[i].value == ValueOf(jobs[id].status) &&
                             jobs[id].finishedAt.value < now - ws[i].days * 24 * 60 * 60
  {
    hide StatusOf, ValueOf;
    forall i | 0 <= i < |ws|
      ensures StatusOf(ws[i].value) == Some(jobs[id].status) <==> ws[i].value == ValueOf(jobs[id].status)
    {
      StatusOfIff(ws[i].value, jobs[id].status);
    }
    var j := jobs[id];
    if Covered(j, ws, now) {
      var i :| 0 <= i < |ws| && StatusOf(ws[i].value) == Some(j.status) && FinishedBefore(j, Cutoff(now, ws[i].days));
      assert ws[i].value == ValueOf(j.status);
    }
  }

  lemma AuditEligibleIff(jobs: Jobs, now: int, days: int, id: Id)
    requires id in jobs
    ensures id in AuditEligible(jobs, Cutoff(now, days)) <==>
              && jobs[id].auditCritical && !jobs[id].underInvestigation && !jobs[id].underDispute
              && jobs[id].finishedAt.Some? && jobs[id].finishedAt.value < now - days * 24 * 60 * 60
  {
  }

  predicate HasWindow(ws: seq<Window>, value: string) {
    exists i :: 0 <= i < |ws| && ws[i].value == value
  }

  /** What one window takes, said on the columns. */
  lemma WindowIdsIff(jobs: Jobs, w: Window, now: int, id: Id)
    ensures id in WindowIds(jobs, w, now) <==>
              && id in jobs && w.value == ValueOf(jobs[id].status)
              && !jobs[id].underInvestigation && !jobs[id].underDispute && !jobs[id].auditCritical
              && jobs[id].finishedAt.Some? && jobs[id].finishedAt.value < now - w.days * 24 * 60 * 60
  {
    hide StatusOf, ValueOf;
    if id in jobs { StatusOfIff(w.value, jobs[id].status); }
  }

  /** The report of a sweep has a number for each known status value, and the numbers add up to
      the jobs deleted. */
  lemma {:induction false} CountsAddUp(jobs: Jobs, ws: seq<Window>, now: int)
    requires IsConfig(ws)
    ensures forall v :: v in DryCounts(jobs, ws, now) <==>
              StatusOf(v).Some? && HasWindow(ws, v)
    ensures Total(jobs, ws, now) == |Expired(jobs, ws, now)|
    ensures forall i :: 0 <= i < |ws| && StatusOf(ws[i].value).Some? ==>
              && ws[i].value in DryCounts(jobs, ws, now)
              && DryCounts(jobs, ws, now)[ws[i].value] == |WindowIds(jobs, ws[i], now)|
  {
    hide WindowIds, StatusOf, Expired;
    TakenIsExpired(jobs, ws, now);
    if ws != [] {
      var init, w := ws[..|ws| - 1], ws[|ws| - 1];
      CountsAddUp(jobs, init, now);
      TakenIsExpired(jobs, init, now);
      WindowsAreDisjoint(jobs, init, now, w);
      if StatusOf(w.value).None? { NoWindow(jobs, w, now); }
      CountsKeys(jobs, ws, now);
      forall i | 0 <= i < |ws| && StatusOf(ws[i].value).Some?
        ensures ws[i].value in DryCounts(jobs, ws, now)
        ensures DryCounts(jobs, ws, now)[ws[i].value] == |WindowIds(jobs, ws[i], now)|
      {
        assert HasWindow(ws, ws[i].value);
        if i < |init| { assert init[i] == ws[i]; }
      }
    }
  }

  /** The sum of the numbers. */
  function Total(jobs: Jobs, ws: seq<Window>, now: int): nat {
    if ws == [] then 0
    else
      var w := ws[|ws| - 1];
      var counts := DryCounts(jobs, ws, now);
      Total(jobs, ws[..|ws| - 1], now) + if w.value in counts then counts[w.value] else 0
  }

  lemma NoWindow(jobs: Jobs, w: Window, now: int)
    requires StatusOf(w.value).None?
    ensures WindowIds(jobs, w, now) == {}
  {
  }

  lemma {:induction false} CountsKeys(jobs: Jobs, ws: seq<Window>, now: int)
    ensures forall v :: v in DryCounts(jobs, ws, now) <==>
              StatusOf(v).Some? && HasWindow(ws, v)
  {
    hide WindowIds, StatusOf;
    if ws != [] {
      var init, w := ws[..|ws| - 1], ws[|ws| - 1];
      CountsKeys(jobs, init, now);
      forall v ensures HasWindow(ws, v) <==> v == w.value || HasWindow(init, v) {
        if i :| 0 <= i < |ws| && ws[i].value == v { assert i < |init| ==> init[i].value == v; }
        if i :| 0 <= i < |init| && init[i].value == v { assert ws[i].value == v; }
        assert ws[|ws| - 1] == w;
      }
    }
  }

  /** The standard and the audit-critical sweep at one time remove disjoint sets, and their
      order does not matter. */
  lemma SweepsCommute(jobs: Jobs, ws: seq<Window>, now: int, auditCutoff: int)
    ensures Expired(jobs, ws, now) !! AuditEligible(jobs, auditCutoff)
    ensures var standardFirst := jobs - Expired(jobs, ws, now);
            var auditFirst := jobs - AuditEligible(jobs, auditCutoff);
            standardFirst - AuditEligible(standardFirst, auditCutoff) == auditFirst - Expired(auditFirst, ws, now)
  {
    var e, a := Expired(jobs, ws, now), AuditEligible(jobs, auditCutoff);
    assert AuditEligible(jobs - e, auditCutoff) == a;
    assert Expired(jobs - a, ws, now) == e;
    assert (jobs - e) - a == (jobs - a) - e;
  }

  /** The jobs that a sweep gets hold of: with batches of zero it never gets any. */
  function Reached(jobs: Jobs, batchSize: nat): Jobs {
    if batchSize == 0 then map[] else jobs
  }

  /** The jobs that a sweep reports about: a dry run counts them all. */
  function Reported(jobs: Jobs, dryRun: bool, batchSize: nat): Jobs {
    if dryRun then jobs else Reached(jobs, batchSize)
  }

  datatype Stats = Stats(deletedByStatus: map<string, nat>, totalDeleted: nat)

  class JobCleanup {
    var jobs: Jobs

    constructor (jobs: Jobs)
      ensures this.jobs == jobs
    {
      this.jobs := jobs;
    }

    /** Any `limit` ids of a query result. */
    method Batch(ids: set<Id>, limit: nat) returns (batch: set<Id>)
      ensures batch <= ids && |batch| == Min(limit, |ids|)
    {
      batch := {};
      var rest := ids;
      while rest != {} && |batch| < limit
        invariant batch !! rest && batch + rest == ids && |batch| <= limit
        decreases rest
      {
        var id := Pick(rest);
        batch, rest := batch + {id}, rest - {id};
      }
      assert |ids| == |batch| + |rest|;
    }

    /** _delete_eligible: with a batch size of zero nothing is ever deleted. */
    method DeleteEligible(status: Status, cutoff: int, batchSize: nat) returns (total: nat)
      modifies this
      ensures batchSize >= 1 ==>
                && jobs == old(jobs) - Eligible(old(jobs), status, cutoff)
                && total == |Eligible(old(jobs), status, cutoff)|
      ensures batchSize == 0 ==> jobs == old(jobs) && total == 0
    {
      total := 0;
      ghost var gone := {};
      ghost var all := Eligible(jobs, status, cutoff);
      while true
        invariant gone <= all && jobs == old(jobs) - gone && total == |gone|
        invariant batchSize == 0 ==> gone == {}
        decreases |all| - |gone|
      {
        var ids := Batch(Eligible(jobs, status, cutoff), batchSize);
        EligibleRest(old(jobs), status, cutoff, gone);
        SizeOfRest(all, gone);
        if ids == {} { break; }
        jobs := jobs - ids;
        total := total + |ids|;
        assert jobs == old(jobs) - (gone + ids);
        gone := gone + ids;
        SizeOfRest(all, gone);
        if |ids| < batchSize { break; }
      }
      if batchSize >= 1 { NothingLeft(all, gone); }
    }

    /** cleanup_old_jobs: no configured windows means the default ones. */
    method CleanupOldJobs(configured: seq<Window>, defaults: seq<Window>, now: int, dryRun: bool, batchSize: nat)
      returns (stats: Stats)
      requires IsConfig(configured) && IsConfig(defaults)
      modifies this
      ensures var ws := if configured == [] then defaults else configured;
              && jobs == (if dryRun then old(jobs) else old(jobs) - Expired(Reached(old(jobs), batchSize), ws, now))
              && stats.deletedByStatus == DryCounts(Reported(old(jobs), dryRun, batchSize), ws, now)
              && stats.totalDeleted == if dryRun then 0 else |Expired(Reached(old(jobs), batchSize), ws, now)|
      ensures var ws := if configured == [] then defaults else configured;
              !dryRun && batchSize >= 1 ==>
                jobs == old(jobs) - Expired(old(jobs), ws, now) && stats.totalDeleted == |Expired(old(jobs), ws, now)|
      ensures dryRun || batchSize == 0 ==> jobs == old(jobs) && stats.totalDeleted == 0
    {
      var ws := if configured == [] then defaults else configured;
      stats := SweepWindows(ws, now, dryRun, batchSize);
    }

    method SweepWindows(ws: seq<Window>, now: int, dryRun: bool, batchSize: nat) returns (stats: Stats)
      requires IsConfig(ws)
      modifies this
      ensures jobs == if dryRun then old(jobs) else old(jobs) - Expired(Reached(old(jobs), batchSize), ws, now)
      ensures stats.deletedByStatus == DryCounts(Reported(old(jobs), dryRun, batchSize), ws, now)
      ensures stats.totalDeleted == if dryRun then 0 else |Expired(Reached(old(jobs), batchSize), ws, now)|
    {
      hide WindowIds, Expired, StatusOf, Reported, Reached;
      ghost var reach := Reached(old(jobs), batchSize);
      ghost var seen := Reported(old(jobs), dryRun, batchSize);
      var counts: map<string, nat> := map[];
      var total := 0;
      ghost var gone := {};
      var i := 0;
      while i < |ws|
        invariant 0 <= i <= |ws|
        invariant gone == (if dryRun then {} else Taken(reach, ws[..i], now))
        invariant jobs == old(jobs) - gone && total == |gone|
        invariant counts == DryCounts(seen, ws[..i], now)
      {
        var w := ws[i];
        ghost var mine := WindowIds(reach, w, now);
        assert ws[..i + 1][..i] == ws[..i];
        WindowsAreDisjoint(reach, ws[..i], now, w);
        RemainingReached(old(jobs), gone, w, now, dryRun, batchSize);
        assert mine - gone == mine;
        var count, deleted := CleanWindow(w, now, dryRun, batchSize);
        if count.Some? { counts := counts[w.value := count.value]; }
        total := total + deleted;
        ghost var more := if dryRun then {} else mine;
        MinusBoth(old(jobs), gone, more);
        gone := gone + more;
        i := i + 1;
      }
      assert ws[..|ws|] == ws;
      TakenIsExpired(reach, ws, now);
      stats := Stats(counts, total);
    }

    /** One window: unknown status values are skipped; what is counted is what is deleted. */
    method CleanWindow(w: Window, now: int, dryRun: bool, batchSize: nat) returns (count: Option<nat>, deleted: nat)
      modifies this
      ensures count == if StatusOf(w.value).None? then None
                       else Some(|WindowIds(Reported(old(jobs), dryRun, batchSize), w, now)|)
      ensures jobs == if dryRun then old(jobs) else old(jobs) - WindowIds(Reached(old(jobs), batchSize), w, now)
      ensures deleted == if dryRun then 0 else |WindowIds(Reached(old(jobs), batchSize), w, now)|
    {
      hide Eligible;
      var status := StatusOf(w.value);
      NothingEligible(w, now);
      if status.None? { return None, 0; }
      var cutoff := Cutoff(now, w.days);
      var n := |Eligible(jobs, status.value, cutoff)|;
      deleted := 0;
      if !dryRun && n > 0 {
        deleted := DeleteEligible(status.value, cutoff, batchSize);
        n := deleted;
      }
      count := Some(n);
    }

    /** cleanup_audit_critical; zero days means the configured default. */
    method CleanupAuditCritical(days: int, defaultDays: int, now: int, dryRun: bool, batchSize: nat)
      returns (eligible: nat, deleted: nat)
      modifies this
      ensures var cutoff := Cutoff(now, if days == 0 then defaultDays else days);
              && jobs == (if dryRun then old(jobs)
                          else old(jobs) - AuditEligible(Reached(old(jobs), batchSize), cutoff))
              && eligible == |AuditEligible(old(jobs), cutoff)|
              && deleted == |AuditEligible(Reported(old(jobs), dryRun, batchSize), cutoff)|
              && (!dryRun && batchSize >= 1 ==> jobs == old(jobs) - AuditEligible(old(jobs), cutoff))
              && (dryRun || batchSize == 0 ==> jobs == old(jobs))
    {
      var cutoff := Cutoff(now, if days == 0 then defaultDays else days);
      ghost var all := AuditEligible(jobs, cutoff);
      eligible := |AuditEligible(jobs, cutoff)|;
      if dryRun { return eligible, eligible; }
      deleted := 0;
      ghost var gone := {};
      if eligible > 0 {
        while true
          invariant gone <= all && jobs == old(jobs) - gone && deleted == |gone|
          invariant batchSize == 0 ==> gone == {}
          decreases |all| - |gone|
        {
          var ids := Batch(AuditEligible(jobs, cutoff), batchSize);
          AuditRest(old(jobs), cutoff, gone);
          SizeOfRest(all, gone);
          if ids == {} { break; }
          jobs := jobs - ids;
          deleted := deleted + |ids|;
          assert jobs == old(jobs) - (gone + ids);
          gone := gone + ids;
          SizeOfRest(all, gone);
          if |ids| < batchSize { break; }
        }
        if batchSize >= 1 { NothingLeft(all, gone); }
      }
    }
  }

  lemma MinusBoth(jobs: Jobs, a: set<Id>, b: set<Id>)
    ensures (jobs - a) - b == jobs - (a + b)
  {
  }

  lemma EligibleRest(jobs: Jobs, status: Status, cutoff: int, gone: set<Id>)
    ensures Eligible(jobs - gone, status, cutoff) == Eligible(jobs, status, cutoff) - gone
  {
  }

  lemma AuditRest(jobs: Jobs, cutoff: int, gone: set<Id>)
    ensures AuditEligible(jobs - gone, cutoff) == AuditEligible(jobs, cutoff) - gone
  {
  }

  lemma SizeOfRest(all: set<Id>, gone: set<Id>)
    requires gone <= all
    ensures |all - gone| == |all| - |gone|
  {
  }

  lemma NothingLeft(all: set<Id>, gone: set<Id>)
    requires gone <= all && |all - gone| == 0
    ensures gone == all
  {
  }
}
