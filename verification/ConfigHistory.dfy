/** Versioned SLA configuration history: the diff recorded with every change, and the
    read-then-insert protocol that numbers the versions. */
module ConfigHistory {
  import opened Common

  // ---------------------------------------------------------------------------
  // Diffs
  // ---------------------------------------------------------------------------

  /** A configuration value: JSON null, or a value known by what JSON.stringify prints;
      two values may differ and still print alike. */
  datatype Value = Null | Data(tag: int, text: string)

  type ConfigMap = map<string, Value>

  function Print(v: Value): string {
    match v
    case Null => "null"
    case Data(_, text) => text
  }

  /** JSON.stringify of a member that may be absent (undefined prints as nothing at all). */
  function PrintMember(c: ConfigMap, k: string): Option<string> {
    if k in c then Some(Print(c[k])) else None
  }

  /** `c[k] ?? null` */
  function OrNull(c: ConfigMap, k: string): Value {
    if k in c then c[k] else Null
  }

  datatype Change = Change(from: Value, to: Value)

  type Diff = map<string, Change>

  predicate Changed(prev: ConfigMap, next: ConfigMap, k: string) {
    PrintMember(prev, k) != PrintMember(next, k)
  }

  function DiffOf(prev: ConfigMap, next: ConfigMap): Diff {
    map k | k in prev.Keys + next.Keys && Changed(prev, next, k) :: Change(OrNull(prev, k), OrNull(next, k))
  }

  /** computeDiff: one pass over the union of the keys. */
  method ComputeDiff(prev: ConfigMap, next: ConfigMap) returns (diff: Diff)
    ensures diff == DiffOf(prev, next)
  {
    diff := map[];
    var allKeys := prev.Keys + next.Keys;
    var todo := allKeys;
    while todo != {}
      invariant todo <= allKeys
      invariant forall k :: k in diff <==> k in allKeys && k !in todo && Changed(prev, next, k)
      invariant forall k :: k in diff ==> diff[k] == Change(OrNull(prev, k), OrNull(next, k))
    {
      var key := Pick(todo);
      if Changed(prev, next, key) {
        diff := diff[key := Change(OrNull(prev, key), OrNull(next, key))];
      }
      todo := todo - {key};
    }
  }

  /** Setting every changed member to one side of a diff; null means that the member is absent. */
  function Patched(c: ConfigMap, to: map<string, Value>): ConfigMap {
    map k | k in c.Keys + to.Keys && (k in to ==> to[k] != Null) :: if k in to then to[k] else c[k]
  }

  function Apply(d: Diff, c: ConfigMap): ConfigMap {
    Patched(c, map k | k in d :: d[k].to)
  }

  function Undo(d: Diff, c: ConfigMap): ConfigMap {
    Patched(c, map k | k in d :: d[k].from)
  }

  /** Equality as JSON.stringify sees it, member by member. */
  ghost predicate Alike(a: ConfigMap, b: ConfigMap) {
    forall k :: PrintMember(a, k) == PrintMember(b, k)
  }

  predicate NullFree(c: ConfigMap) {
    forall k :: k in c ==> c[k] != Null
  }

  lemma ApplyMember(base: ConfigMap, prev: ConfigMap, next: ConfigMap, k: string)
    ensures PrintMember(Apply(DiffOf(base, next), prev), k) ==
              if !Changed(base, next, k) then PrintMember(prev, k)
              else if OrNull(next, k) == Null then None
              else PrintMember(next, k)
  {
  }

  lemma UndoMember(prev: ConfigMap, next: ConfigMap, k: string)
    ensures PrintMember(Undo(DiffOf(prev, next), next), k) ==
              if Changed(prev, next, k) && OrNull(prev, k) == Null then None else PrintMember(prev, k)
  {
  }

  /** A change from base to next can be replayed on prev: what it sets is not null, and what
      it leaves alone is in prev already as next has it. */
  ghost predicate Rebases(base: ConfigMap, prev: ConfigMap, next: ConfigMap) {
    forall k :: if Changed(base, next, k) then k in next ==> next[k] != Null else !Changed(prev, next, k)
  }

  /** Applying a diff that was taken against one configuration to another one gives the new
      configuration exactly when the change can be replayed there. */
  lemma ApplyElsewhereIff(base: ConfigMap, prev: ConfigMap, next: ConfigMap)
    ensures Alike(Apply(DiffOf(base, next), prev), next) <==> Rebases(base, prev, next)
  {
    hide Apply, DiffOf;
    var out := Apply(DiffOf(base, next), prev);
    forall k ensures PrintMember(out, k) == PrintMember(next, k) <==>
                       if Changed(base, next, k) then k in next ==> next[k] != Null else !Changed(prev, next, k) {
      ApplyMember(base, prev, next, k);
    }
    if !Rebases(base, prev, next) {
      var k :| !(if Changed(base, next, k) then k in next ==> next[k] != Null else !Changed(prev, next, k));
      assert PrintMember(out, k) != PrintMember(next, k);
    }
  }

  /** Without nulls only the members that the change leaves alone matter. */
  lemma NullFreeRebasesIff(base: ConfigMap, prev: ConfigMap, next: ConfigMap)
    requires NullFree(next)
    ensures Rebases(base, prev, next) <==>
              forall k :: PrintMember(base, k) == PrintMember(next, k) ==> PrintMember(prev, k) == PrintMember(next, k)
  {
    if Rebases(base, prev, next) {
      forall k | PrintMember(base, k) == PrintMember(next, k) ensures PrintMember(prev, k) == PrintMember(next, k) {
        assert !Changed(base, next, k);
      }
    }
  }

  /** Applying the diff to the old configuration gives the new one exactly when every null
      of the new one was already printed as null before. */
  lemma ApplyGivesNextIff(prev: ConfigMap, next: ConfigMap)
    ensures Alike(Apply(DiffOf(prev, next), prev), next) <==>
              forall k :: k in next && next[k] == Null ==> k in prev && Print(prev[k]) == "null"
  {
    hide Apply, DiffOf, Alike;
    ApplyElsewhereIff(prev, prev, next);
    if Rebases(prev, prev, next) {
      forall k | k in next && next[k] == Null ensures k in prev && Print(prev[k]) == "null" {
        assert !Changed(prev, next, k);
      }
    }
  }

  lemma UndoGivesPrevIff(prev: ConfigMap, next: ConfigMap)
    ensures Alike(Undo(DiffOf(prev, next), next), prev) <==>
              forall k :: k in prev && prev[k] == Null ==> k in next && Print(next[k]) == "null"
  {
    hide Undo, DiffOf;
    forall k ensures PrintMember(Undo(DiffOf(prev, next), next), k) ==
              if Changed(prev, next, k) && OrNull(prev, k) == Null then None else PrintMember(prev, k) {
      UndoMember(prev, next, k);
    }
    if !(forall k :: k in prev && prev[k] == Null ==> k in next && Print(next[k]) == "null") {
      var k :| k in prev && prev[k] == Null && !(k in next && Print(next[k]) == "null");
      assert PrintMember(Undo(DiffOf(prev, next), next), k) != PrintMember(prev, k);
    }
  }

  /** Patching configurations that print alike gives configurations that print alike. */
  lemma ApplyRespectsPrint(d: Diff, a: ConfigMap, b: ConfigMap)
    requires Alike(a, b)
    ensures Alike(Apply(d, a), Apply(d, b))
  {
    forall k ensures PrintMember(Apply(d, a), k) == PrintMember(Apply(d, b), k) {
      assert PrintMember(a, k) == PrintMember(b, k);
    }
  }

  // ---------------------------------------------------------------------------
  // The history table and its writers
  // ---------------------------------------------------------------------------

  datatype Version = Version(snapshot: ConfigMap, diff: Diff)

  /** The versions of one configuration, and the table of all of them: a (config, version)
      pair names at most one row. */
  type Versions = map<nat, Version>
  type History = map<string, Versions>

  /** Where one recordChange call has got to; base is the version that its first read found. */
  datatype Writer =
    | HasLatest(config: string, base: nat, snapshot: ConfigMap, diff: Diff)
    | HasMax(config: string, base: nat, snapshot: ConfigMap, diff: Diff, version: nat)

  /** The table, the calls under way and, for the record only, what the writer of each stored
      version had read. */
  datatype State = State(rows: History, writers: map<int, Writer>, bases: map<(string, nat), nat>)

  function BaseOf(s: State, config: string, k: nat): nat {
    if (config, k) in s.bases then s.bases[(config, k)] else 0
  }

  function VersionsOf(rows: History, config: string): Versions {
    if config in rows then rows[config] else map[]
  }

  /** The version numbers are exactly 1..n, n being how many there are. */
  ghost predicate Gapless(vs: Versions) {
    UpTo(vs, |vs|)
  }

  ghost predicate UpTo(vs: Versions, n: nat) {
    forall v :: v in vs <==> 1 <= v <= n
  }

  /** m is COALESCE(MAX(version), 0). */
  predicate IsMaxVersion(vs: Versions, m: nat) {
    (m == 0 || m in vs) && forall v :: v in vs ==> v <= m
  }

  /** The snapshot of version m, or the empty configuration when there is no such version. */
  function SnapshotAt(vs: Versions, m: nat): ConfigMap {
    if m in vs then vs[m].snapshot else map[]
  }

  // One database statement of some writer; the two reads and the insert of one call may be
  // separated by any statements of other writers.

  /** findLatest, and the diff computed from what it returned. */
  function ReadLatest(s: State, w: int, config: string, next: ConfigMap, m: nat): State {
    var diff := DiffOf(SnapshotAt(VersionsOf(s.rows, config), m), next);
    s.(writers := s.writers[w := HasLatest(config, m, next, diff)])
  }

  /** getLatestVersion */
  function ReadMax(s: State, w: int, m: nat): State
    requires w in s.writers
  {
    var me := s.writers[w];
    s.(writers := s.writers[w := HasMax(me.config, me.base, me.snapshot, me.diff, m + 1)])
  }

  /** INSERT: refused by the unique constraint when the version is taken. */
  function Inserted(rows: History, w: Writer): History
    requires w.HasMax?
  {
    var vs := VersionsOf(rows, w.config);
    if w.version in vs then rows else rows[w.config := vs[w.version := Version(w.snapshot, w.diff)]]
  }

  function Insert(s: State, w: int): State
    requires w in s.writers && s.writers[w].HasMax?
  {
    var me := s.writers[w];
    State(Inserted(s.rows, me), s.writers - {w},
          if me.version in VersionsOf(s.rows, me.config) then s.bases else s.bases[(me.config, me.version) := me.base])
  }

  datatype Statement =
    | DoReadLatest(w: int, config: string, next: ConfigMap, m: nat)
    | DoReadMax(w: int, m: nat)
    | DoInsert(w: int)

  predicate Possible(s: State, st: Statement) {
    match st
    case DoReadLatest(w, config, _, m) => w !in s.writers && IsMaxVersion(VersionsOf(s.rows, config), m)
    case DoReadMax(w, m) =>
      w in s.writers && s.writers[w].HasLatest? && IsMaxVersion(VersionsOf(s.rows, s.writers[w].config), m)
    case DoInsert(w) => w in s.writers && s.writers[w].HasMax?
  }

  function Next(s: State, st: Statement): State
    requires Possible(s, st)
  {
    match st
    case DoReadLatest(w, config, next, m) => ReadLatest(s, w, config, next, m)
    case DoReadMax(w, m) => ReadMax(s, w, m)
    case DoInsert(w) => Insert(s, w)
  }

  const EMPTY := State(map[], map[], map[])

  /** The state reached by an interleaving; None when some statement was not possible. */
  function Run(sts: seq<Statement>): Option<State> {
    if sts == [] then Some(EMPTY)
    else match Run(sts[..|sts| - 1])
      case None => None
      case Some(s) => if Possible(s, sts[|sts| - 1]) then Some(Next(s, sts[|sts| - 1])) else None
  }

  /** Versions are gapless, and no writer holds a number beyond the next free one. */
  ghost predicate Numbered(s: State) {
    && (forall config :: Gapless(VersionsOf(s.rows, config)))
    && (forall w :: w in s.writers && s.writers[w].HasMax? ==>
          1 <= s.writers[w].version <= |VersionsOf(s.rows, s.writers[w].config)| + 1)
  }

  lemma GaplessMax(vs: Versions, m: nat)
    requires Gapless(vs) && IsMaxVersion(vs, m)
    ensures m == |vs|
  {
    hide UpTo, Gapless;
    GaplessHas(vs, m);
    GaplessHas(vs, |vs|);
  }

  lemma MaxIsUnique(vs: Versions, m: nat, n: nat)
    requires IsMaxVersion(vs, m) && IsMaxVersion(vs, n)
    ensures m == n
  {
  }

  lemma UpToGrows(vs: Versions, n: nat, row: Version)
    requires UpTo(vs, n)
    ensures UpTo(vs[n + 1 := row], n + 1)
  {
  }

  lemma SizeGrows(vs: Versions, v: nat, row: Version)
    requires v !in vs
    ensures |vs[v := row]| == |vs| + 1
  {
    assert vs[v := row].Keys == vs.Keys + {v};
  }

  lemma GaplessGrows(vs: Versions, v: nat, row: Version)
    requires Gapless(vs) && v !in vs && 1 <= v <= |vs| + 1
    ensures v == |vs| + 1 && Gapless(vs[v := row]) && |vs[v := row]| == |vs| + 1
  {
    hide UpTo;
    assert v == |vs| + 1 by { GaplessHas(vs, v); }
    UpToGrows(vs, |vs|, row);
    SizeGrows(vs, v, row);
  }

  lemma GaplessHas(vs: Versions, v: nat)
    requires Gapless(vs)
    ensures v in vs <==> 1 <= v <= |vs|
  {
  }

  lemma InsertKeepsNumbered(s: State, w: int)
    requires Numbered(s) && w in s.writers && s.writers[w].HasMax?
    ensures Numbered(Insert(s, w))
  {
    hide Gapless;
    var me := s.writers[w];
    var vs := VersionsOf(s.rows, me.config);
    if me.version !in vs { GaplessGrows(vs, me.version, Version(me.snapshot, me.diff)); }
    var s' := Insert(s, w);
    forall config
      ensures Gapless(VersionsOf(s'.rows, config)) && |VersionsOf(s'.rows, config)| >= |VersionsOf(s.rows, config)| {
      if config != me.config { assert VersionsOf(s'.rows, config) == VersionsOf(s.rows, config); }
    }
  }

  lemma NextKeepsNumbered(s: State, st: Statement)
    requires Numbered(s) && Possible(s, st)
    ensures Numbered(Next(s, st))
  {
    hide Insert, DiffOf;
    match st
    case DoReadLatest(_, _, _, _) =>
    case DoReadMax(w, m) => GaplessMax(VersionsOf(s.rows, s.writers[w].config), m);
    case DoInsert(w) => InsertKeepsNumbered(s, w);
  }

  /** However the reads and inserts of any number of writers interleave, the versions of
      every configuration are exactly 1..n. */
  lemma {:induction false} VersionsAreGapless(sts: seq<Statement>)
    requires Run(sts).Some?
    ensures Numbered(Run(sts).value)
    ensures forall config :: Gapless(VersionsOf(Run(sts).value.rows, config))
  {
    if sts != [] {
      VersionsAreGapless(sts[..|sts| - 1]);
      NextKeepsNumbered(Run(sts[..|sts| - 1]).value, sts[|sts| - 1]);
    }
  }

  // ---------------------------------------------------------------------------
  // Replaying the diffs
  // ---------------------------------------------------------------------------

  /** Diffs applied in order to the empty configuration. */
  function Replay(diffs: seq<Diff>): ConfigMap {
    if diffs == [] then map[] else Apply(diffs[|diffs| - 1], Replay(diffs[..|diffs| - 1]))
  }

  /** The diffs of versions 1..k. */
  function Diffs(vs: Versions, k: nat): seq<Diff> {
    if k == 0 then [] else Diffs(vs, k - 1) + if k in vs then [vs[k].diff] else []
  }

  /** Folding the diffs reproduces each of the first n snapshots as printed. */
  ghost predicate ReplaysUpTo(vs: Versions, n: nat) {
    forall k :: 0 <= k <= n ==> Alike(Replay(Diffs(vs, k)), SnapshotAt(vs, k))
  }

  /** Diff k leads from snapshot k - 1 to snapshot k. */
  ghost predicate Links(vs: Versions, k: nat) {
    k in vs && k >= 1 && Alike(Apply(vs[k].diff, SnapshotAt(vs, k - 1)), vs[k].snapshot)
  }

  /** All of the first n snapshots are reproduced exactly when every one of the first n diffs
      leads from its predecessor's snapshot to its own. */
  lemma {:induction false} ReplaysIff(vs: Versions, n: nat)
    requires Gapless(vs) && n <= |vs|
    ensures ReplaysUpTo(vs, n) <==> forall k :: 1 <= k <= n ==> Links(vs, k)
  {
    hide Gapless, Apply, Alike, Replay, Diffs;
    if n == 0 {
      GaplessHas(vs, 0);
      NothingReplays(vs);
    } else {
      ReplaysIff(vs, n - 1);
      GaplessHas(vs, n);
      if ReplaysUpTo(vs, n - 1) { ReplayStep(vs, n); }
      assert ReplaysUpTo(vs, n) <==> ReplaysUpTo(vs, n - 1) && Alike(Replay(Diffs(vs, n)), SnapshotAt(vs, n));
    }
  }

  lemma NothingReplays(vs: Versions)
    requires 0 !in vs
    ensures Alike(Replay(Diffs(vs, 0)), SnapshotAt(vs, 0))
  {
  }

  /** One more diff, folded onto a reproduced snapshot. */
  lemma ReplayStep(vs: Versions, k: nat)
    requires k >= 1 && k in vs && Alike(Replay(Diffs(vs, k - 1)), SnapshotAt(vs, k - 1))
    ensures Alike(Replay(Diffs(vs, k)), SnapshotAt(vs, k)) <==> Links(vs, k)
  {
    hide Apply, Alike;
    var earlier, diffs := Diffs(vs, k - 1), Diffs(vs, k);
    assert diffs == earlier + [vs[k].diff] && diffs[..|diffs| - 1] == earlier;
    var folded, direct := Apply(vs[k].diff, Replay(earlier)), Apply(vs[k].diff, SnapshotAt(vs, k - 1));
    ApplyRespectsPrint(vs[k].diff, Replay(earlier), SnapshotAt(vs, k - 1));
    AlikeIsSameSide(folded, direct, vs[k].snapshot);
  }

  lemma AlikeIsSameSide(a: ConfigMap, b: ConfigMap, c: ConfigMap)
    requires Alike(a, b)
    ensures Alike(a, c) <==> Alike(b, c)
  {
    forall k ensures PrintMember(a, k) == PrintMember(c, k) <==> PrintMember(b, k) == PrintMember(c, k) {
      assert PrintMember(a, k) == PrintMember(b, k);
    }
  }

  /** Every stored diff, and every diff a writer holds, was taken against the snapshot of the
      version its writer had read, and that version is an earlier one. */
  ghost predicate Based(s: State) {
    && (forall w :: w in s.writers ==> WriterBased(s.rows, s.writers[w]))
    && forall config :: RowsBased(s, config)
  }

  ghost predicate WriterBased(rows: History, w: Writer) {
    var vs := VersionsOf(rows, w.config);
    w.base <= |vs| && w.diff == DiffOf(SnapshotAt(vs, w.base), w.snapshot)
  }

  ghost predicate RowsBased(s: State, config: string) {
    var vs := VersionsOf(s.rows, config);
    forall k :: k in vs ==>
      BaseOf(s, config, k) < k && vs[k].diff == DiffOf(SnapshotAt(vs, BaseOf(s, config, k)), vs[k].snapshot)
  }

  lemma SnapshotsStay(vs: Versions, row: Version, k: nat)
    requires Gapless(vs) && k <= |vs|
    ensures SnapshotAt(vs[|vs| + 1 := row], k) == SnapshotAt(vs, k)
  {
  }

  /** What an accepted insert does to the versions of its configuration. */
  lemma InsertAppends(s: State, w: int)
    requires Numbered(s) && w in s.writers && s.writers[w].HasMax?
    requires s.writers[w].version !in VersionsOf(s.rows, s.writers[w].config)
    ensures var me := s.writers[w];
            var vs, vs' := VersionsOf(s.rows, me.config), VersionsOf(Insert(s, w).rows, me.config);
            && me.version == |vs| + 1 == |vs'|
            && vs' == vs[|vs| + 1 := Version(me.snapshot, me.diff)]
            && (forall k :: k in vs ==> 1 <= k <= |vs|)
            && (forall k: nat :: k <= |vs| ==> SnapshotAt(vs', k) == SnapshotAt(vs, k))
            && (forall k :: BaseOf(Insert(s, w), me.config, k) ==
                              if k == me.version then me.base else BaseOf(s, me.config, k))
  {
    hide Gapless, SnapshotAt;
    var me := s.writers[w];
    var vs, row := VersionsOf(s.rows, me.config), Version(me.snapshot, me.diff);
    GaplessGrows(vs, me.version, row);
    forall k: nat | k <= |vs| ensures SnapshotAt(vs[|vs| + 1 := row], k) == SnapshotAt(vs, k) {
      SnapshotsStay(vs, row, k);
    }
    forall k | k in vs ensures 1 <= k <= |vs| { GaplessHas(vs, k); }
  }

  lemma InsertElsewhere(s: State, w: int, config: string)
    requires w in s.writers && s.writers[w].HasMax?
    requires config != s.writers[w].config || s.writers[w].version in VersionsOf(s.rows, config)
    ensures VersionsOf(Insert(s, w).rows, config) == VersionsOf(s.rows, config)
    ensures forall k :: BaseOf(Insert(s, w), config, k) == BaseOf(s, config, k)
  {
  }

  lemma InsertKeepsRowsBased(s: State, w: int, config: string)
    requires Numbered(s) && RowsBased(s, config) && w in s.writers && s.writers[w].HasMax?
             && WriterBased(s.rows, s.writers[w])
    ensures RowsBased(Insert(s, w), config)
  {
    hide Numbered, DiffOf, SnapshotAt, VersionsOf, Insert, BaseOf;
    var me := s.writers[w];
    if config == me.config && me.version !in VersionsOf(s.rows, config) {
      InsertAppends(s, w);
    } else {
      InsertElsewhere(s, w, config);
    }
  }

  lemma InsertKeepsWriterBased(s: State, w: int, other: Writer)
    requires Numbered(s) && WriterBased(s.rows, other) && w in s.writers && s.writers[w].HasMax?
    ensures WriterBased(Insert(s, w).rows, other)
  {
    hide Numbered, Insert, DiffOf, SnapshotAt, VersionsOf;
    var me := s.writers[w];
    if other.config == me.config && me.version !in VersionsOf(s.rows, me.config) {
      InsertAppends(s, w);
    } else {
      InsertElsewhere(s, w, other.config);
    }
  }

  lemma InsertKeepsBased(s: State, w: int)
    requires Numbered(s) && Based(s) && w in s.writers && s.writers[w].HasMax?
    ensures Based(Insert(s, w))
  {
    hide Numbered, RowsBased, WriterBased;
    forall config ensures RowsBased(Insert(s, w), config) { InsertKeepsRowsBased(s, w, config); }
    forall u | u in Insert(s, w).writers ensures WriterBased(Insert(s, w).rows, s.writers[u]) {
      InsertKeepsWriterBased(s, w, s.writers[u]);
    }
  }

  lemma NextKeepsBased(s: State, st: Statement)
    requires Numbered(s) && Based(s) && Possible(s, st)
    ensures Based(Next(s, st))
  {
    hide Insert, DiffOf, Gapless, SnapshotAt, IsMaxVersion;
    match st
    case DoInsert(w) => InsertKeepsBased(s, w);
    case DoReadLatest(w, config, next, m) =>
      GaplessMax(VersionsOf(s.rows, config), m);
      forall c ensures RowsBased(Next(s, st), c) { assert RowsBased(s, c); }
    case DoReadMax(w, m) =>
      assert WriterBased(s.rows, s.writers[w]);
      forall c ensures RowsBased(Next(s, st), c) { assert RowsBased(s, c); }
  }

  lemma {:induction false} RunIsBased(sts: seq<Statement>)
    requires Run(sts).Some?
    ensures Based(Run(sts).value)
  {
    hide Based, Next, Possible;
    if sts == [] {
      EmptyIsBased();
    } else {
      RunIsBased(sts[..|sts| - 1]);
      VersionsAreGapless(sts[..|sts| - 1]);
      NextKeepsBased(Run(sts[..|sts| - 1]).value, sts[|sts| - 1]);
    }
  }

  lemma EmptyIsBased()
    ensures Based(EMPTY)
  {
  }

  /** The snapshot was handed to a call for this configuration. */
  ghost predicate Asked(sts: seq<Statement>, config: string, snapshot: ConfigMap) {
    exists i :: 0 <= i < |sts| && sts[i].DoReadLatest? && sts[i].config == config && sts[i].next == snapshot
  }

  ghost predicate AllAsked(sts: seq<Statement>, s: State) {
    && (forall config, k :: k in VersionsOf(s.rows, config) ==>
          Asked(sts, config, VersionsOf(s.rows, config)[k].snapshot))
    && (forall w :: w in s.writers ==> Asked(sts, s.writers[w].config, s.writers[w].snapshot))
  }

  /** Under every interleaving, what is stored for a configuration, and what a writer is about to
      store, is what some call for it was given. */
  lemma {:induction false} StoredWasAsked(sts: seq<Statement>)
    requires Run(sts).Some?
    ensures AllAsked(sts, Run(sts).value)
  {
    hide DiffOf, Asked, Next, Possible;
    if sts != [] {
      var init := sts[..|sts| - 1];
      StoredWasAsked(init);
      forall config, snapshot | Asked(init, config, snapshot) ensures Asked(sts, config, snapshot) {
        AskedStays(sts, config, snapshot);
      }
      AskedNow(sts);
      NextKeepsAsked(sts, Run(init).value, sts[|sts| - 1]);
    }
  }

  lemma NextKeepsAsked(sts: seq<Statement>, s: State, st: Statement)
    requires AllAsked(sts, s) && Possible(s, st) && (st.DoReadLatest? ==> Asked(sts, st.config, st.next))
    ensures AllAsked(sts, Next(s, st))
  {
    hide DiffOf, Asked;
    var s' := Next(s, st);
    forall config, k | k in VersionsOf(s'.rows, config)
      ensures Asked(sts, config, VersionsOf(s'.rows, config)[k].snapshot)
    {
      if k in VersionsOf(s.rows, config) && VersionsOf(s'.rows, config)[k] == VersionsOf(s.rows, config)[k] {
        assert Asked(sts, config, VersionsOf(s.rows, config)[k].snapshot);
      }
    }
  }

  lemma AskedStays(sts: seq<Statement>, config: string, snapshot: ConfigMap)
    requires sts != [] && Asked(sts[..|sts| - 1], config, snapshot)
    ensures Asked(sts, config, snapshot)
  {
    var init := sts[..|sts| - 1];
    var i :| 0 <= i < |init| && init[i].DoReadLatest? && init[i].config == config && init[i].next == snapshot;
    assert sts[i] == init[i];
  }

  lemma AskedNow(sts: seq<Statement>)
    requires sts != []
    ensures sts[|sts| - 1].DoReadLatest? ==> Asked(sts, sts[|sts| - 1].config, sts[|sts| - 1].next)
  {
  }

  /** The change stored as version k, made against the version its writer had read, can be
      replayed on the version stored before it. */
  ghost predicate Replayable(s: State, config: string, k: nat) {
    var vs := VersionsOf(s.rows, config);
    k >= 1 && Rebases(SnapshotAt(vs, BaseOf(s, config, k)), SnapshotAt(vs, k - 1), SnapshotAt(vs, k))
  }

  /** After any interleaving, folding the diffs of a configuration reproduces its first n
      snapshots exactly when each of the first n changes is replayable. */
  lemma InterleavedRunReplaysIff(sts: seq<Statement>, config: string, n: nat)
    requires Run(sts).Some? && n <= |VersionsOf(Run(sts).value.rows, config)|
    ensures var s := Run(sts).value;
            ReplaysUpTo(VersionsOf(s.rows, config), n) <==> forall k :: 1 <= k <= n ==> Replayable(s, config, k)
  {
    hide Gapless, DiffOf, Apply, Alike, Rebases, ReplaysUpTo, Run;
    var s := Run(sts).value;
    var vs := VersionsOf(s.rows, config);
    VersionsAreGapless(sts);
    RunIsBased(sts);
    ReplaysIff(vs, n);
    assert RowsBased(s, config);
    forall k | 1 <= k <= n ensures Links(vs, k) <==> Replayable(s, config, k) {
      GaplessHas(vs, k);
      ApplyElsewhereIff(SnapshotAt(vs, BaseOf(s, config, k)), SnapshotAt(vs, k - 1), vs[k].snapshot);
    }
  }

  /** A writer that was not overtaken stores a replayable change, if it sets nothing to null. */
  lemma CurrentBaseReplays(s: State, config: string, k: nat)
    requires k >= 1 && BaseOf(s, config, k) == k - 1 && NullFree(SnapshotAt(VersionsOf(s.rows, config), k))
    ensures Replayable(s, config, k)
  {
  }

  /** Each version was diffed against its predecessor. */
  ghost predicate Chained(vs: Versions) {
    && Gapless(vs)
    && forall k :: k in vs ==>
         && k >= 1 && NullFree(vs[k].snapshot)
         && vs[k].diff == DiffOf(SnapshotAt(vs, k - 1), vs[k].snapshot)
  }

  /** Chained diffs, folded from nothing, reproduce every snapshot as printed. */
  lemma ReplayReproduces(vs: Versions, k: nat)
    requires Chained(vs) && k <= |vs|
    ensures Alike(Replay(Diffs(vs, k)), SnapshotAt(vs, k))
  {
    hide Gapless, DiffOf, Apply, Alike;
    forall i | 1 <= i <= k ensures Links(vs, i) {
      GaplessHas(vs, i);
      ApplyGivesNextIff(SnapshotAt(vs, i - 1), vs[i].snapshot);
    }
    ReplaysIff(vs, k);
  }

  /** A recordChange call that no other writer interrupts, m being the greatest version. */
  function RecordAfter(rows: History, config: string, next: ConfigMap, m: nat): History {
    var vs := VersionsOf(rows, config);
    rows[config := vs[m + 1 := Version(next, DiffOf(SnapshotAt(vs, m), next))]]
  }

  function Record(rows: History, config: string, next: ConfigMap): History {
    RecordAfter(rows, config, next, |VersionsOf(rows, config)|)
  }

  /** Such a call is three consecutive statements of the protocol. */
  lemma RecordIsThreeStatements(s: State, w: int, config: string, next: ConfigMap, m: nat)
    requires w !in s.writers && IsMaxVersion(VersionsOf(s.rows, config), m)
    ensures var s1 := ReadLatest(s, w, config, next, m);
            && Possible(s, DoReadLatest(w, config, next, m)) && Possible(s1, DoReadMax(w, m))
            && Possible(ReadMax(s1, w, m), DoInsert(w))
            && Insert(ReadMax(s1, w, m), w) ==
                 s.(rows := RecordAfter(s.rows, config, next, m), bases := s.bases[(config, m + 1) := m])
    ensures var vs, vs' := VersionsOf(s.rows, config), VersionsOf(RecordAfter(s.rows, config, next, m), config);
            && vs'.Keys == vs.Keys + {m + 1} && m + 1 !in vs && SnapshotAt(vs', m + 1) == next
            && (forall k :: k in vs ==> vs'[k] == vs[k])
            && forall other :: other != config ==>
                 VersionsOf(RecordAfter(s.rows, config, next, m), other) == VersionsOf(s.rows, other)
  {
    hide DiffOf;
    var s2 := ReadMax(ReadLatest(s, w, config, next, m), w, m);
    assert s2.writers - {w} == s.writers;
    assert m + 1 !in VersionsOf(s.rows, config);
  }

  /** The calls of a sequential run, oldest first. */
  datatype Calls = NoCalls | Call(before: Calls, config: string, next: ConfigMap)

  function Stored(c: Calls): History {
    match c
    case NoCalls => map[]
    case Call(b, config, next) => Record(Stored(b), config, next)
  }

  predicate AllNullFree(c: Calls) {
    c.Call? ==> NullFree(c.next) && AllNullFree(c.before)
  }

  lemma ChainedGrows(vs: Versions, next: ConfigMap)
    requires Chained(vs) && NullFree(next)
    ensures Chained(vs[|vs| + 1 := Version(next, DiffOf(SnapshotAt(vs, |vs|), next))])
  {
    hide DiffOf, NullFree, Gapless;
    var row := Version(next, DiffOf(SnapshotAt(vs, |vs|), next));
    var vs' := vs[|vs| + 1 := row];
    GaplessHas(vs, |vs| + 1);
    GaplessGrows(vs, |vs| + 1, row);
    forall k | k in vs'
      ensures k >= 1 && NullFree(vs'[k].snapshot) && vs'[k].diff == DiffOf(SnapshotAt(vs', k - 1), vs'[k].snapshot) {
      GaplessHas(vs', k);
      assert SnapshotAt(vs', k - 1) == SnapshotAt(vs, k - 1);
    }
  }

  lemma {:induction false} SequentialIsChained(c: Calls, config: string)
    requires AllNullFree(c)
    ensures Chained(VersionsOf(Stored(c), config))
  {
    hide DiffOf;
    match c
    case NoCalls =>
    case Call(b, x, next) =>
      hide Chained;
      SequentialIsChained(b, config);
      if x == config { ChainedGrows(VersionsOf(Stored(b), config), next); }
  }

  /** After any sequential run over null-free configurations, for every configuration and every
      version k, folding the stored diffs 1..k from the empty one reproduces snapshot k. */
  lemma SequentialRunReplays(c: Calls, config: string, k: nat)
    requires AllNullFree(c) && k <= |VersionsOf(Stored(c), config)|
    ensures Alike(Replay(Diffs(VersionsOf(Stored(c), config), k)), SnapshotAt(VersionsOf(Stored(c), config), k))
  {
    SequentialIsChained(c, config);
    ReplayReproduces(VersionsOf(Stored(c), config), k);
  }

  /** Two changes that were both diffed against the empty configuration do not replay. */
  lemma StaleDiffs(one: Value, two: Value)
    requires one != Null && two != Null
    ensures var a: ConfigMap, b: ConfigMap := map["a" := one], map["b" := two];
            var vs: Versions := map[1 := Version(a, DiffOf(map[], a)), 2 := Version(b, DiffOf(map[], b))];
            !Alike(Replay(Diffs(vs, 2)), SnapshotAt(vs, 2))
  {
    var a: ConfigMap, b: ConfigMap := map["a" := one], map["b" := two];
    var da, db := DiffOf(map[], a), DiffOf(map[], b);
    var vs: Versions := map[1 := Version(a, da), 2 := Version(b, db)];
    assert Diffs(vs, 1) == [] + [da] && Diffs(vs, 2) == Diffs(vs, 1) + [db];
    ReplayPair(da, db);
    ChangesOnly(a, "a");
    ChangesOnly(b, "b");
    var out := Apply(db, Apply(da, map[]));
    assert "a" in Apply(da, map[]) && "a" in out;
    assert PrintMember(out, "a") != PrintMember(b, "a");
  }

  lemma ChangesOnly(c: ConfigMap, k: string)
    requires c.Keys == {k} && c[k] != Null
    ensures DiffOf(map[], c) == map[k := Change(Null, c[k])]
  {
  }

  lemma ReplayPair(d: Diff, e: Diff)
    ensures Replay([] + [d] + [e]) == Apply(e, Apply(d, map[]))
  {
    hide Apply;
    assert ([] + [d] + [e])[..1] == [d] && [d][..0] == [];
    assert Replay([d]) == Apply(d, Replay([]));
  }

  /** Interleaved writers can store exactly that: versions stay gapless, replay is lost. */
  lemma InterleavingBreaksReplay(one: Value, two: Value)
    requires one != Null && two != Null
    ensures var a: ConfigMap, b: ConfigMap := map["a" := one], map["b" := two];
            var sts := [DoReadLatest(1, "c", a, 0), DoReadLatest(2, "c", b, 0), DoReadMax(1, 0), DoInsert(1),
                        DoReadMax(2, 1), DoInsert(2)];
            && Run(sts).Some?
            && var vs := VersionsOf(Run(sts).value.rows, "c");
               !Alike(Replay(Diffs(vs, 2)), SnapshotAt(vs, 2))
  {
    hide Replay, Diffs, DiffOf, Run, Alike;
    var a: ConfigMap, b: ConfigMap := map["a" := one], map["b" := two];
    var da, db := DiffOf(map[], a), DiffOf(map[], b);
    var first: map<(string, nat), nat> := map[("c", 1) := 0];
    var s3 := State(map[], map[1 := HasMax("c", 0, a, da, 1), 2 := HasLatest("c", 0, b, db)], map[]);
    var s4 := State(map["c" := map[1 := Version(a, da)]], map[2 := HasLatest("c", 0, b, db)], first);
    var s5 := s4.(writers := map[2 := HasMax("c", 0, b, db, 2)]);
    var s6 := State(map["c" := map[1 := Version(a, da), 2 := Version(b, db)]], map[], first[("c", 2) := 0]);
    BothRead(a, b);
    var r3 := [] + [DoReadLatest(1, "c", a, 0)] + [DoReadLatest(2, "c", b, 0)] + [DoReadMax(1, 0)];
    assert s3.writers - {1} == s4.writers;
    RunStep(r3, DoInsert(1), s3, s4);
    var r4 := r3 + [DoInsert(1)];
    RunStep(r4, DoReadMax(2, 1), s4, s5);
    var r5 := r4 + [DoReadMax(2, 1)];
    assert s5.writers - {2} == s6.writers;
    RunStep(r5, DoInsert(2), s5, s6);
    assert r5 + [DoInsert(2)] ==
           [DoReadLatest(1, "c", a, 0), DoReadLatest(2, "c", b, 0), DoReadMax(1, 0), DoInsert(1),
            DoReadMax(2, 1), DoInsert(2)];
    StaleDiffs(one, two);
  }

  lemma BothRead(a: ConfigMap, b: ConfigMap)
    ensures var w1 := HasMax("c", 0, a, DiffOf(map[], a), 1);
            var w2 := HasLatest("c", 0, b, DiffOf(map[], b));
            Run([] + [DoReadLatest(1, "c", a, 0)] + [DoReadLatest(2, "c", b, 0)] + [DoReadMax(1, 0)]) ==
              Some(State(map[], map[1 := w1, 2 := w2], map[]))
  {
    hide DiffOf, Run;
    var da, db := DiffOf(map[], a), DiffOf(map[], b);
    var s1 := EMPTY.(writers := map[1 := HasLatest("c", 0, a, da)]);
    var s2 := EMPTY.(writers := map[1 := HasLatest("c", 0, a, da), 2 := HasLatest("c", 0, b, db)]);
    var s3 := EMPTY.(writers := map[1 := HasMax("c", 0, a, da, 1), 2 := HasLatest("c", 0, b, db)]);
    RunStart();
    RunStep([], DoReadLatest(1, "c", a, 0), EMPTY, s1);
    RunStep([] + [DoReadLatest(1, "c", a, 0)], DoReadLatest(2, "c", b, 0), s1, s2);
    RunStep([] + [DoReadLatest(1, "c", a, 0)] + [DoReadLatest(2, "c", b, 0)], DoReadMax(1, 0), s2, s3);
  }

  lemma RunStart()
    ensures Run([]) == Some(EMPTY)
  {
  }

  lemma RunStep(sts: seq<Statement>, st: Statement, s: State, s': State)
    requires Run(sts) == Some(s) && Possible(s, st) && Next(s, st) == s'
    ensures Run(sts + [st]) == Some(s')
  {
    assert (sts + [st])[..|sts|] == sts;
  }

  // ---------------------------------------------------------------------------
  // The service
  // ---------------------------------------------------------------------------

  class Service {
    var rows: History

    constructor ()
      ensures rows == map[]
    {
      rows := map[];
    }

    method MaxVersion(config: string) returns (m: nat)
      ensures IsMaxVersion(VersionsOf(rows, config), m)
    {
      var todo := VersionsOf(rows, config).Keys;
      m := 0;
      while todo != {}
        invariant todo <= VersionsOf(rows, config).Keys
        invariant forall v :: v in VersionsOf(rows, config) ==> v in todo || v <= m
        invariant m == 0 || m in VersionsOf(rows, config)
      {
        var v := Pick(todo);
        if v > m { m := v; }
        todo := todo - {v};
      }
    }

    /** recordChange without interruption: reads the latest row, diffs, numbers and inserts. */
    method RecordChange(config: string, next: ConfigMap) returns (version: nat)
      modifies this
      ensures version >= 1 && IsMaxVersion(VersionsOf(old(rows), config), version - 1)
      ensures rows == RecordAfter(old(rows), config, next, version - 1)
      ensures Gapless(VersionsOf(old(rows), config)) ==>
                rows == Record(old(rows), config, next) && Gapless(VersionsOf(rows, config))
    {
      hide DiffOf, Gapless, IsMaxVersion;
      var vs := VersionsOf(rows, config);
      var latest := MaxVersion(config);
      var previous: ConfigMap := map[];
      if latest in vs { previous := vs[latest].snapshot; }
      var diff := ComputeDiff(previous, next);
      var m := MaxVersion(config);
      MaxIsUnique(vs, latest, m);
      version := m + 1;
      rows := rows[config := vs[version := Version(next, diff)]];
      if Gapless(vs) {
        GaplessMax(vs, m);
        GaplessHas(vs, version);
        GaplessGrows(vs, version, Version(next, diff));
      }
    }
  }
}
