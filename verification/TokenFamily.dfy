/** Login sessions and refresh-token families: rotation, reuse detection and logout, in the
    sense of section 5.2.2.3 of RFC 6819. */
module TokenFamily {
  import opened Common

  type Token = int
  type FamilyId = int

  datatype Session = Session(refresh: Token, email: string, family: Option<FamilyId>, sequence: int)

  datatype Family = Family(email: string, current: int, compromised: bool)

  /** Sessions are keyed by access token; token digests are taken to be injective. */
  datatype Db = Db(sessions: map<Token, Session>, families: map<FamilyId, Family>)

  datatype Outcome =
    | Accepted(access: Token, refresh: Token)
    | InvalidToken | Locked | InvalidFamily | Compromised | ReuseDetected | UserNotFound

  /** The session that a refresh token belongs to. */
  predicate Holds(db: Db, access: Token, refresh: Token) {
    access in db.sessions && db.sessions[access].refresh == refresh
  }

  // ---------------------------------------------------------------------------
  // Operations
  // ---------------------------------------------------------------------------

  /** A login that passed the password check, with freshly generated identifiers. */
  function Login(db: Db, email: string, access: Token, refresh: Token, fam: FamilyId): Db {
    Db(db.sessions[access := Session(refresh, email, Some(fam), 0)], db.families[fam := Family(email, 0, false)])
  }

  function DropFamily(db: Db, fam: FamilyId): map<Token, Session> {
    map t | t in db.sessions && db.sessions[t].family != Some(fam) :: db.sessions[t]
  }

  /** A session from before families existed is given a family of its own. */
  function Migrated(db: Db, old_: Token, fam: FamilyId): Db
    requires old_ in db.sessions
  {
    var s := db.sessions[old_];
    if s.family.Some? then db
    else Db(db.sessions[old_ := s.(family := Some(fam), sequence := 0)], db.families[fam := Family(s.email, 0, false)])
  }

  /** The rotation of session `old_`, which now belongs to a family. The family row is one
      object: after increment_sequence it already shows the new number, to which one more is
      added for the new session. */
  function Rotated(db: Db, old_: Token, userExists: bool, access: Token, refresh: Token): (Db, Outcome)
    requires old_ in db.sessions && db.sessions[old_].family.Some?
  {
    var s := db.sessions[old_];
    var fam := s.family.value;
    if fam !in db.families then (db, InvalidFamily)
    else if db.families[fam].compromised then (db, Compromised)
    else if s.sequence < db.families[fam].current then
      (Db(DropFamily(db, fam), db.families[fam := db.families[fam].(compromised := true)]), ReuseDetected)
    else
      var f := db.families[fam].(current := db.families[fam].current + 1);
      var db' := Db(db.sessions - {old_}, db.families[fam := f]);
      if !userExists then (db', UserNotFound)
      else (db'.(sessions := db'.sessions[access := Session(refresh, s.email, Some(fam), f.current + 1)]),
            Accepted(access, refresh))
  }

  /** _refresh_with_db for a presented token that session `old_` holds. */
  function Refresh(db: Db, old_: Token, locked: bool, userExists: bool, access: Token,
                   refresh: Token, fam: FamilyId): (Db, Outcome)
    requires old_ in db.sessions
  {
    if locked then (db, Locked) else Rotated(Migrated(db, old_, fam), old_, userExists, access, refresh)
  }

  function Logout(db: Db, access: Token): Db {
    db.(sessions := db.sessions - {access})
  }

  function LogoutAll(db: Db, email: string): Db {
    Db(map t | t in db.sessions && db.sessions[t].email != email :: db.sessions[t],
       map f | f in db.families && db.families[f].email != email :: db.families[f])
  }

  // ---------------------------------------------------------------------------
  // Runs
  // ---------------------------------------------------------------------------

  datatype Op =
    | LoginOp(email: string, access: Token, refresh: Token, fam: FamilyId)
    | RefreshOp(presented: Token, old_: Option<Token>, locked: bool, userExists: bool,
                access: Token, refresh: Token, fam: FamilyId)
    | LogoutOp(token: Token)
    | LogoutAllOp(user: string)

  /** The database together with everything ever issued and the tokens accepted so far. */
  datatype World = World(db: Db, accesses: set<Token>, refreshes: set<Token>, fams: set<FamilyId>, accepted: seq<Token>)

  /** Generated identifiers are new, and the session lookup answers what is in the table. */
  predicate Legal(w: World, op: Op) {
    match op
    case LoginOp(_, a, r, f) => a !in w.accesses && r !in w.refreshes && f !in w.fams
    case RefreshOp(p, old_, _, _, a, r, f) =>
      && a !in w.accesses && r !in w.refreshes && f !in w.fams
      && (if old_.Some? then Holds(w.db, old_.value, p) else forall t :: t in w.db.sessions ==> !Holds(w.db, t, p))
    case LogoutOp(_) => true
    case LogoutAllOp(_) => true
  }

  function RefreshOutcome(w: World, op: Op): (Db, Outcome)
    requires op.RefreshOp? && (op.old_.Some? ==> op.old_.value in w.db.sessions)
  {
    if op.old_.None? then (w.db, InvalidToken)
    else Refresh(w.db, op.old_.value, op.locked, op.userExists, op.access, op.refresh, op.fam)
  }

  function Step(w: World, op: Op): World
    requires Legal(w, op)
  {
    match op
    case LoginOp(e, a, r, f) =>
      World(Login(w.db, e, a, r, f), w.accesses + {a}, w.refreshes + {r}, w.fams + {f}, w.accepted)
    case RefreshOp(p, _, _, _, a, r, f) =>
      var (db, out) := RefreshOutcome(w, op);
      World(db, w.accesses + {a}, w.refreshes + {r}, w.fams + {f},
            if out.Accepted? then w.accepted + [p] else w.accepted)
    case LogoutOp(t) => w.(db := Logout(w.db, t))
    case LogoutAllOp(e) => w.(db := LogoutAll(w.db, e))
  }

  // ---------------------------------------------------------------------------
  // The invariant
  // ---------------------------------------------------------------------------

  /** One live session per family; the family exists, is intact, has the session's email and a
      number no greater than the session's; refresh tokens are unique. */
  predicate DbOk(db: Db) {
    && (forall t :: t in db.sessions && db.sessions[t].family.Some? ==> SessionOk(db, db.sessions[t]))
    && (forall t, u :: t in db.sessions && u in db.sessions && t != u ==>
          db.sessions[t].refresh != db.sessions[u].refresh &&
          (db.sessions[t].family.Some? ==> db.sessions[t].family != db.sessions[u].family))
    && (forall f :: f in db.families ==> !db.families[f].compromised)
  }

  predicate SessionOk(db: Db, s: Session)
    requires s.family.Some?
  {
    && s.family.value in db.families
    && db.families[s.family.value].email == s.email
    && db.families[s.family.value].current <= s.sequence
    && s.sequence == (if db.families[s.family.value].current == 0 then 0 else db.families[s.family.value].current + 1)
    && db.families[s.family.value].current >= 0
  }

  predicate WorldOk(w: World) {
    && DbOk(w.db)
    && (forall t :: t in w.db.sessions ==>
          && t in w.accesses && w.db.sessions[t].refresh in w.refreshes
          && w.db.sessions[t].refresh !in w.accepted)
    && (forall f :: f in w.db.families ==> f in w.fams)
    && (forall p :: p in w.accepted ==> p in w.refreshes)
    && (forall i, j :: 0 <= i < j < |w.accepted| ==> w.accepted[i] != w.accepted[j])
  }

  lemma LoginKeepsDb(db: Db, email: string, access: Token, refresh: Token, fam: FamilyId)
    requires DbOk(db) && fam !in db.families
    requires access !in db.sessions && forall t :: t in db.sessions ==> db.sessions[t].refresh != refresh
    ensures DbOk(Login(db, email, access, refresh, fam))
  {
  }

  lemma MigrateKeepsDb(db: Db, old_: Token, fam: FamilyId)
    requires DbOk(db) && old_ in db.sessions && fam !in db.families
    ensures DbOk(Migrated(db, old_, fam)) && old_ in Migrated(db, old_, fam).sessions
    ensures Migrated(db, old_, fam).sessions[old_].family ==
              if db.sessions[old_].family.None? then Some(fam) else db.sessions[old_].family
    ensures Migrated(db, old_, fam).sessions.Keys == db.sessions.Keys
    ensures forall t :: t in db.sessions ==> Migrated(db, old_, fam).sessions[t].refresh == db.sessions[t].refresh
    ensures forall t :: t in db.sessions ==> Migrated(db, old_, fam).sessions[t].email == db.sessions[t].email
    ensures forall t :: t in db.sessions && t != old_ ==> Migrated(db, old_, fam).sessions[t] == db.sessions[t]
    ensures forall f :: f in Migrated(db, old_, fam).families ==> f in db.families || f == fam
  {
  }

  /** Rotation replaces the session by its successor in the same family; neither a missing or
      compromised family nor reuse is ever detected. */
  lemma RotateKeepsDb(db: Db, old_: Token, userExists: bool, access: Token, refresh: Token)
    requires DbOk(db) && old_ in db.sessions && db.sessions[old_].family.Some?
    requires access !in db.sessions && forall t :: t in db.sessions ==> db.sessions[t].refresh != refresh
    ensures var (db', out) := Rotated(db, old_, userExists, access, refresh);
            && DbOk(db')
            && out == (if userExists then Accepted(access, refresh) else UserNotFound)
            && old_ !in db'.sessions
            && (forall t :: t in db'.sessions ==>
                  if t == access then db'.sessions[t].refresh == refresh
                  else t in db.sessions && db'.sessions[t] == db.sessions[t])
            && (forall t :: t in db.sessions && t != old_ ==> t in db'.sessions)
            && (userExists ==>
                  && access in db'.sessions
                  && db'.sessions[access].email == db.sessions[old_].email
                  && db'.sessions[access].family == db.sessions[old_].family)
            && db'.families.Keys == db.families.Keys
            && (forall f :: f in db.families ==>
                  db'.families[f] == if Some(f) == db.sessions[old_].family
                                     then db.families[f].(current := db.families[f].current + 1) else db.families[f])
  {
    var s := db.sessions[old_];
    assert SessionOk(db, s);
    assert forall t :: t in db.sessions && t != old_ ==> db.sessions[t].family != s.family;
  }

  /** Every refresh with a live token of an unlocked account rotates it, and reuse detection,
      which looks at sequence numbers, never fires in a sequential run. */
  lemma RefreshVerdict(w: World, op: Op)
    requires WorldOk(w) && op.RefreshOp? && Legal(w, op)
    ensures RefreshOutcome(w, op).1 ==
              if op.old_.None? then InvalidToken
              else if op.locked then Locked
              else if op.userExists then Accepted(op.access, op.refresh)
              else UserNotFound
    ensures DbOk(RefreshOutcome(w, op).0)
  {
    hide DbOk, Rotated, Migrated;
    if op.old_.Some? && !op.locked {
      var old_ := op.old_.value;
      MigrateKeepsDb(w.db, old_, op.fam);
      RotateKeepsDb(Migrated(w.db, old_, op.fam), old_, op.userExists, op.access, op.refresh);
    }
  }

  lemma RefreshKeepsWorld(w: World, op: Op)
    requires WorldOk(w) && op.RefreshOp? && Legal(w, op)
    ensures WorldOk(Step(w, op))
  {
    hide DbOk, Rotated, Migrated;
    RefreshVerdict(w, op);
    if op.old_.Some? && !op.locked {
      var old_ := op.old_.value;
      var mid := Migrated(w.db, old_, op.fam);
      MigrateKeepsDb(w.db, old_, op.fam);
      RotateKeepsDb(mid, old_, op.userExists, op.access, op.refresh);
      assert op.presented == w.db.sessions[old_].refresh;
      OthersHaveOtherTokens(w.db, old_);
    }
  }

  lemma OthersHaveOtherTokens(db: Db, old_: Token)
    requires DbOk(db) && old_ in db.sessions
    ensures forall t :: t in db.sessions && t != old_ ==> db.sessions[t].refresh != db.sessions[old_].refresh
  {
  }

  lemma LogoutAllKeepsDb(db: Db, email: string)
    requires DbOk(db)
    ensures DbOk(LogoutAll(db, email))
  {
  }

  lemma LogoutKeepsDb(db: Db, t: Token)
    requires DbOk(db)
    ensures DbOk(Logout(db, t))
  {
  }

  lemma StepKeepsWorld(w: World, op: Op)
    requires WorldOk(w) && Legal(w, op)
    ensures WorldOk(Step(w, op))
  {
    hide DbOk;
    match op
    case LoginOp(e, a, r, f) => LoginKeepsDb(w.db, e, a, r, f);
    case RefreshOp(_, _, _, _, _, _, _) => RefreshKeepsWorld(w, op);
    case LogoutOp(t) => LogoutKeepsDb(w.db, t);
    case LogoutAllOp(e) => LogoutAllKeepsDb(w.db, e);
  }

  /** The worlds along a run, starting from a table that may hold sessions without a family. */
  datatype Trace = Start(w: World) | After(before: Trace, op: Op, w: World)

  predicate IsRun(t: Trace) {
    match t
    case Start(w) =>
      && w.db.families == map[] && w.accepted == []
      && (forall s :: s in w.db.sessions ==>
            && w.db.sessions[s].family.None? && s in w.accesses
            && w.db.sessions[s].refresh in w.refreshes)
      && (forall s, u :: s in w.db.sessions && u in w.db.sessions && s != u ==>
            w.db.sessions[s].refresh != w.db.sessions[u].refresh)
    case After(b, op, w) => IsRun(b) && Legal(b.w, op) && w == Step(b.w, op)
  }

  /** Over every sequential run of login, refresh, logout and logout-all: one live session per
      family, consistent families, and no refresh token accepted twice. */
  lemma {:induction false} RunKeepsWorld(t: Trace)
    requires IsRun(t)
    ensures WorldOk(t.w)
    ensures forall i, j :: 0 <= i < j < |t.w.accepted| ==> t.w.accepted[i] != t.w.accepted[j]
  {
    match t
    case Start(w) =>
    case After(b, op, w) =>
      RunKeepsWorld(b);
      StepKeepsWorld(b.w, op);
  }

  /** A token that was accepted is refused for ever after: no live session holds it. */
  lemma AcceptedTokenIsDead(t: Trace, op: Op)
    requires IsRun(t) && op.RefreshOp? && Legal(t.w, op) && op.presented in t.w.accepted
    ensures RefreshOutcome(t.w, op).1 == InvalidToken
  {
    RunKeepsWorld(t);
  }

  // ---------------------------------------------------------------------------
  // Which sessions live, and which tokens are dead
  // ---------------------------------------------------------------------------

  /** What ends a session: its own logout, the logout of all its user's sessions, or a refresh
      with its token while the account is not locked. */
  predicate Ends(op: Op, access: Token, s: Session) {
    match op
    case LoginOp(_, _, _, _) => false
    case RefreshOp(p, _, locked, _, _, _, _) => p == s.refresh && !locked
    case LogoutOp(t) => t == access
    case LogoutAllOp(user) => user == s.email
  }

  /** Nothing else ends a session, and nothing changes it while it lives. */
  lemma SessionSurvivesIff(w: World, op: Op, access: Token)
    requires WorldOk(w) && Legal(w, op) && access in w.db.sessions
    ensures access in Step(w, op).db.sessions <==> !Ends(op, access, w.db.sessions[access])
    ensures access in Step(w, op).db.sessions ==> Step(w, op).db.sessions[access] == w.db.sessions[access]
  {
    if op.RefreshOp? {
      hide DbOk, Rotated, Migrated;
      if op.old_.Some? && !op.locked {
        var old_ := op.old_.value;
        MigrateKeepsDb(w.db, old_, op.fam);
        RotateKeepsDb(Migrated(w.db, old_, op.fam), old_, op.userExists, op.access, op.refresh);
        OthersHaveOtherTokens(w.db, old_);
      }
    }
  }

  /** Only a login and an accepted refresh start a session, of the right user. */
  lemma SessionStartsIff(w: World, op: Op, access: Token)
    requires WorldOk(w) && Legal(w, op) && access !in w.db.sessions
    ensures access in Step(w, op).db.sessions <==>
              || (op.LoginOp? && access == op.access)
              || (op.RefreshOp? && access == op.access && op.old_.Some? && !op.locked && op.userExists)
    ensures access in Step(w, op).db.sessions ==>
              && Step(w, op).db.sessions[access].refresh == op.refresh
              && Step(w, op).db.sessions[access].email ==
                   (if op.LoginOp? then op.email else w.db.sessions[op.old_.value].email)
              && Step(w, op).db.sessions[access].family ==
                   (if op.LoginOp? || w.db.sessions[op.old_.value].family.None? then Some(op.fam)
                    else w.db.sessions[op.old_.value].family)
  {
    if op.RefreshOp? {
      hide DbOk, Rotated, Migrated;
      if op.old_.Some? && !op.locked {
        var old_ := op.old_.value;
        MigrateKeepsDb(w.db, old_, op.fam);
        RotateKeepsDb(Migrated(w.db, old_, op.fam), old_, op.userExists, op.access, op.refresh);
      }
    }
  }

  /** Families: a logout leaves them alone, the logout of a user removes exactly that user's. */
  lemma FamiliesAfter(w: World, op: Op, f: FamilyId)
    requires Legal(w, op) && (op.LogoutOp? || op.LogoutAllOp? || op.LoginOp?)
    ensures f in Step(w, op).db.families <==>
              || (f in w.db.families && !(op.LogoutAllOp? && w.db.families[f].email == op.user))
              || (op.LoginOp? && f == op.fam)
    ensures f in Step(w, op).db.families ==>
              Step(w, op).db.families[f] ==
                if op.LoginOp? && f == op.fam then Family(op.email, 0, false) else w.db.families[f]
  {
  }

  /** A token that was issued and that no session holds. */
  ghost predicate Dead(w: World, refresh: Token) {
    refresh in w.refreshes && forall t :: t in w.db.sessions ==> !Holds(w.db, t, refresh)
  }

  lemma StepKeepsDead(w: World, op: Op, refresh: Token)
    requires WorldOk(w) && Legal(w, op) && Dead(w, refresh)
    ensures Dead(Step(w, op), refresh)
  {
    hide WorldOk, Legal;
    var w' := Step(w, op);
    forall t | t in w'.db.sessions ensures !Holds(w'.db, t, refresh) {
      if t in w.db.sessions {
        SessionSurvivesIff(w, op, t);
        assert !Holds(w.db, t, refresh);
      } else {
        SessionStartsIff(w, op, t);
        FreshToken(w, op);
      }
    }
    IssuedStays(w, op);
  }

  lemma FreshToken(w: World, op: Op)
    requires Legal(w, op) && (op.LoginOp? || op.RefreshOp?)
    ensures op.refresh !in w.refreshes
  {
  }

  lemma IssuedStays(w: World, op: Op)
    requires Legal(w, op)
    ensures w.refreshes <= Step(w, op).refreshes
  {
  }

  /** Run t is a beginning of run u. */
  predicate Begins(t: Trace, u: Trace) {
    t == u || (u.After? && Begins(t, u.before))
  }

  lemma {:induction false} DeadStaysDead(t: Trace, u: Trace, refresh: Token)
    requires IsRun(u) && Begins(t, u) && Dead(t.w, refresh)
    ensures Dead(u.w, refresh)
  {
    hide Dead, Legal;
    if t != u {
      DeadStaysDead(t, u.before, refresh);
      RunKeepsWorld(u.before);
      StepKeepsDead(u.before.w, u.op, refresh);
    }
  }

  /** Once a session has ended, by rotation or by either logout, its refresh token is answered as
      invalid for the rest of every run. */
  lemma EndedTokenIsDead(t: Trace, u: Trace, access: Token, op: Op)
    requires IsRun(u) && IsRun(t) && Begins(t, u) && t.After?
    requires access in t.before.w.db.sessions && Ends(t.op, access, t.before.w.db.sessions[access])
    requires op.RefreshOp? && Legal(u.w, op) && op.presented == t.before.w.db.sessions[access].refresh
    ensures RefreshOutcome(u.w, op).1 == InvalidToken
  {
    hide Step, Legal, WorldOk;
    var w := t.before.w;
    RunKeepsWorld(t.before);
    assert Dead(t.w, op.presented) by {
      forall s | s in t.w.db.sessions ensures !Holds(t.w.db, s, op.presented) {
        if s in w.db.sessions {
          SessionSurvivesIff(w, t.op, s);
          SessionSurvivesIff(w, t.op, access);
          OtherToken(w, s, access);
        } else {
          SessionStartsIff(w, t.op, s);
          FreshToken(w, t.op);
          Issued(w, access);
        }
      }
      Issued(w, access);
      IssuedStays(w, t.op);
    }
    DeadStaysDead(t, u, op.presented);
    DeadIsInvalid(u.w, op);
  }

  lemma OtherToken(w: World, s: Token, access: Token)
    requires WorldOk(w) && s in w.db.sessions && access in w.db.sessions
    ensures s != access ==> w.db.sessions[s].refresh != w.db.sessions[access].refresh
  {
  }

  lemma Issued(w: World, access: Token)
    requires WorldOk(w) && access in w.db.sessions
    ensures w.db.sessions[access].refresh in w.refreshes
  {
  }

  lemma DeadIsInvalid(w: World, op: Op)
    requires op.RefreshOp? && Legal(w, op) && Dead(w, op.presented)
    ensures RefreshOutcome(w, op).1 == InvalidToken
  {
  }

  /** Where a sequence number does lag behind its family's, as only interleaved requests can
      bring about, the whole family goes: it is compromised and none of its sessions is left,
      while other families and their sessions are untouched. */
  lemma ReuseCompromises(db: Db, old_: Token, userExists: bool, access: Token, refresh: Token)
    requires old_ in db.sessions && db.sessions[old_].family.Some? && db.sessions[old_].family.value in db.families
    requires var f := db.families[db.sessions[old_].family.value];
             !f.compromised && db.sessions[old_].sequence < f.current
    ensures var fam, r := db.sessions[old_].family.value, Rotated(db, old_, userExists, access, refresh);
            && r.1 == ReuseDetected
            && r.0.families == db.families[fam := db.families[fam].(compromised := true)]
            && (forall t :: t in r.0.sessions <==> t in db.sessions && db.sessions[t].family != Some(fam))
            && (forall t :: t in r.0.sessions ==> r.0.sessions[t] == db.sessions[t])
  {
  }

  /** A missing or compromised family refuses the refresh and changes nothing. */
  lemma BadFamilyRefuses(db: Db, old_: Token, userExists: bool, access: Token, refresh: Token)
    requires old_ in db.sessions && db.sessions[old_].family.Some?
    ensures var fam, r := db.sessions[old_].family.value, Rotated(db, old_, userExists, access, refresh);
            && (fam !in db.families ==> r == (db, InvalidFamily))
            && (fam in db.families && db.families[fam].compromised ==> r == (db, Compromised))
  {
  }

  // ---------------------------------------------------------------------------
  // The store
  // ---------------------------------------------------------------------------

  class AuthStore {
    var sessions: map<Token, Session>
    var families: map<FamilyId, Family>

    function Value(): Db
      reads this
    {
      Db(sessions, families)
    }

    constructor (db: Db)
      ensures Value() == db
    {
      sessions, families := db.sessions, db.families;
    }

    method LoginUser(email: string, access: Token, refresh: Token, fam: FamilyId)
      modifies this
      ensures Value() == Login(old(Value()), email, access, refresh, fam)
    {
      families := families[fam := Family(email, 0, false)];
      sessions := sessions[access := Session(refresh, email, Some(fam), 0)];
    }

    /** `found` is the session that the lookup by refresh token returned. */
    method RefreshToken(presented: Token, locked: bool, userExists: bool, access: Token, refresh: Token, fam: FamilyId)
      returns (out: Outcome, ghost found: Option<Token>)
      modifies this
      ensures found.None? ==>
                && out == InvalidToken && Value() == old(Value())
                && forall t :: t in old(sessions) ==> !Holds(old(Value()), t, presented)
      ensures found.Some? ==> Holds(old(Value()), found.value, presented)
                              && (Value(), out) ==
                                 Refresh(old(Value()), found.value, locked, userExists, access, refresh, fam)
    {
      found := None;
      var holders := set t | t in sessions && sessions[t].refresh == presented;
      if holders == {} {
        assert forall t :: t in sessions && sessions[t].refresh == presented ==> t in holders;
        return InvalidToken, None;
      }
      var t := Pick(holders);
      found := Some(t);
      if locked { return Locked, found; }
      var email := sessions[t].email;
      var family := fam;
      if sessions[t].family.None? {
        families := families[fam := Family(email, 0, false)];
        sessions := sessions[t := sessions[t].(family := Some(fam), sequence := 0)];
      } else {
        family := sessions[t].family.value;
      }
      if family !in families { return InvalidFamily, found; }
      if families[family].compromised { return Compromised, found; }
      if sessions[t].sequence < families[family].current {
        families := families[family := families[family].(compromised := true)];
        var n := DeleteSessions(set s | s in sessions && sessions[s].family == Some(family));
        assert sessions == DropFamily(Migrated(old(Value()), t, fam), family);
        return ReuseDetected, found;
      }
      families := families[family := families[family].(current := families[family].current + 1)];
      sessions := sessions - {t};
      if !userExists { return UserNotFound, found; }
      sessions := sessions[access := Session(refresh, email, Some(family), families[family].current + 1)];
      out := Accepted(access, refresh);
    }

    method LogoutToken(access: Token)
      modifies this
      ensures Value() == Logout(old(Value()), access)
    {
      if access in sessions { sessions := sessions - {access}; }
    }

    method LogoutAllSessions(email: string) returns (count: nat)
      modifies this
      ensures Value() == LogoutAll(old(Value()), email)
      ensures count == |set t | t in old(sessions) && old(sessions)[t].email == email|
    {
      count := DeleteSessions(set t | t in sessions && sessions[t].email == email);
      DeleteFamilies(set f | f in families && families[f].email == email);
    }

    /** The row-by-row deletion loops of the repositories. */
    method DeleteSessions(ts: set<Token>) returns (count: nat)
      modifies this`sessions
      ensures sessions == old(sessions) - ts && count == |ts|
    {
      var todo := ts;
      while todo != {}
        invariant todo <= ts && sessions == old(sessions) - (ts - todo)
      {
        var t := Pick(todo);
        sessions := sessions - {t};
        todo := todo - {t};
      }
      assert ts - todo == ts;
      count := |ts|;
    }

    method DeleteFamilies(fs: set<FamilyId>)
      modifies this`families
      ensures families == old(families) - fs
    {
      var todo := fs;
      while todo != {}
        invariant todo <= fs && families == old(families) - (fs - todo)
      {
        var f := Pick(todo);
        families := families - {f};
        todo := todo - {f};
      }
      assert fs - todo == fs;
    }
  }
}
