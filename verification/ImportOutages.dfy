/** The partial-mode outage import: duplicate detection, insertion, and the outcome of every row. */
module ImportOutages {
  import opened Common

  /** A validated row; `details` stands for the remaining columns that are compared. */
  datatype Payload = Payload(id: string, siteName: string, siteId: Option<string>,
                             detectedAt: int, description: string, details: int)

  /** The table, keyed by outage id. */
  type Table = map<string, Payload>

  /** A row of the file: accepted by validation, or not, always with the same verdict. */
  datatype Raw = Malformed | Valid(p: Payload)

  /** _find_duplicate_orm: the site id only counts when it is given and not empty. */
  predicate SameContent(o: Payload, p: Payload) {
    && o.siteName == p.siteName && o.detectedAt == p.detectedAt && o.description == p.description
    && (p.siteId.Some? && p.siteId.value != "" ==> o.siteId == p.siteId)
  }

  function Duplicates(t: Table, p: Payload): set<string> {
    set id | id in t && SameContent(t[id], p)
  }

  datatype Checked = Conflict | Existing(id: string) | New

  /** What check_duplicate may answer; among several content duplicates any may come first. */
  predicate Checks(t: Table, p: Payload, c: Checked) {
    if p.id in t then c == (if t[p.id] == p then Existing(p.id) else Conflict)
    else if Duplicates(t, p) != {} then c.Existing? && c.id in Duplicates(t, p)
    else c == New
  }

  datatype Outcome = Error | Ok(outage: string, persisted: bool)

  /** The whole decision for one row: the row's outcome. */
  ghost predicate Decides(t: Table, row: Raw, o: Outcome) {
    match row
    case Malformed => o == Error
    case Valid(p) => exists c :: Checks(t, p, c) && o == OutcomeOf(p, c)
  }

  function OutcomeOf(p: Payload, c: Checked): Outcome {
    match c
    case Conflict => Error
    case Existing(id) => Ok(id, false)
    case New => Ok(p.id, true)
  }

  /** The table after one row, which does not depend on which duplicate was found. */
  function Stored(t: Table, row: Raw): Table {
    match row
    case Malformed => t
    case Valid(p) => if p.id in t || Duplicates(t, p) != {} then t else t[p.id := p]
  }

  function Imported(t: Table, rows: seq<Raw>): Table {
    if rows == [] then t else Stored(Imported(t, rows[..|rows| - 1]), rows[|rows| - 1])
  }

  // ---------------------------------------------------------------------------
  // Idempotence
  // ---------------------------------------------------------------------------

  predicate Extends(t: Table, u: Table) {
    forall id :: id in t ==> id in u && u[id] == t[id]
  }

  /** The row is settled: a table that holds everything in t will not store it. */
  predicate Known(t: Table, row: Raw) {
    row.Valid? ==> row.p.id in t || Duplicates(t, row.p) != {}
  }

  lemma KnownStays(t: Table, u: Table, row: Raw)
    requires Known(t, row) && Extends(t, u)
    ensures Known(u, row) && Stored(u, row) == u
  {
    if row.Valid? && row.p.id !in t {
      var id :| id in Duplicates(t, row.p);
      assert id in Duplicates(u, row.p);
    }
  }

  lemma StoredIsKnown(t: Table, row: Raw)
    ensures Extends(t, Stored(t, row)) && Known(Stored(t, row), row)
  {
  }

  lemma ExtendsTransitive(t: Table, u: Table, v: Table)
    requires Extends(t, u) && Extends(u, v)
    ensures Extends(t, v)
  {
  }

  /** After an import, every row of the file is known to the table, which only grew. */
  lemma {:induction false} ImportSettles(t: Table, rows: seq<Raw>)
    ensures Extends(t, Imported(t, rows))
    ensures forall i :: 0 <= i < |rows| ==> Known(Imported(t, rows), rows[i])
  {
    if rows != [] {
      var init, row := rows[..|rows| - 1], rows[|rows| - 1];
      ImportSettles(t, init);
      var mid := Imported(t, init);
      StoredIsKnown(mid, row);
      ExtendsTransitive(t, mid, Stored(mid, row));
      forall i | 0 <= i < |rows| ensures Known(Imported(t, rows), rows[i]) {
        if i < |init| {
          assert init[i] == rows[i];
          KnownStays(mid, Stored(mid, row), rows[i]);
        }
      }
    }
  }

  lemma {:induction false} KnownRowsAreNoOps(t: Table, rows: seq<Raw>)
    requires forall i :: 0 <= i < |rows| ==> Known(t, rows[i])
    ensures Imported(t, rows) == t
  {
    if rows != [] {
      KnownRowsAreNoOps(t, rows[..|rows| - 1]);
      KnownStays(t, t, rows[|rows| - 1]);
    }
  }

  /** Importing the same file again leaves the table as it is. */
  lemma SecondImportIsNoOp(t: Table, rows: seq<Raw>)
    ensures Imported(Imported(t, rows), rows) == Imported(t, rows)
  {
    ImportSettles(t, rows);
    KnownRowsAreNoOps(Imported(t, rows), rows);
  }

  /** The table holds a row for the same site, time and description; when the payload names a
      site id, for that site id too. */
  predicate HasTwin(t: Table, p: Payload) {
    exists id ::
      && id in t
      && t[id].siteName == p.siteName && t[id].detectedAt == p.detectedAt && t[id].description == p.description
      && (p.siteId in {None, Some("")} || t[id].siteId == p.siteId)
  }

  /** The outcome of a row said on its columns: an error exactly when the id is taken by other
      content, stored exactly when neither the id nor a twin is there, otherwise answered with
      the row that is there already. */
  lemma RowVerdict(t: Table, p: Payload, o: Outcome)
    requires Decides(t, Valid(p), o)
    ensures o.Error? <==> p.id in t && t[p.id] != p
    ensures o.Ok? && o.persisted <==> p.id !in t && !HasTwin(t, p)
    ensures o.Ok? && o.persisted ==> o.outage == p.id
    ensures o.Ok? && !o.persisted ==> o.outage in t
    ensures o.Ok? && p.id in t ==> o.outage == p.id && t[p.id] == p
    ensures o.Ok? && p.id !in t && !o.persisted ==>
              && t[o.outage].siteName == p.siteName && t[o.outage].detectedAt == p.detectedAt
              && t[o.outage].description == p.description
  {
    TwinIff(t, p);
  }

  lemma MalformedIsError(t: Table, o: Outcome)
    ensures Decides(t, Malformed, o) <==> o.Error?
  {
  }

  lemma TwinIff(t: Table, p: Payload)
    ensures HasTwin(t, p) <==> Duplicates(t, p) != {}
  {
    assert p.siteId in {None, Some("")} <==> !(p.siteId.Some? && p.siteId.value != "");
    if HasTwin(t, p) {
      var id :| && id in t && t[id].siteName == p.siteName && t[id].detectedAt == p.detectedAt
                && t[id].description == p.description && (p.siteId in {None, Some("")} || t[id].siteId == p.siteId);
      assert id in Duplicates(t, p);
    }
    if Duplicates(t, p) != {} {
      var id :| id in Duplicates(t, p);
      assert id in t && t[id].siteName == p.siteName;
    }
  }

  /** In a second import nothing is stored, and a row that the first import stored is recognised
      as itself. */
  lemma SecondImportAnswers(t: Table, rows: seq<Raw>, i: nat, first: Outcome, second: Outcome)
    requires i < |rows| && rows[i].Valid?
    requires Decides(Imported(t, rows[..i]), rows[i], first)
    requires Decides(Imported(Imported(t, rows), rows[..i]), rows[i], second)
    ensures second.Error? || !second.persisted
    ensures first.Ok? && first.persisted ==> second == Ok(rows[i].p.id, false)
  {
    hide Decides, Imported, Duplicates;
    var all, p := Imported(t, rows), rows[i].p;
    ImportSettles(t, rows);
    assert forall k :: 0 <= k < i ==> rows[..i][k] == rows[k];
    KnownRowsAreNoOps(all, rows[..i]);
    RowVerdict(Imported(t, rows[..i]), p, first);
    RowVerdict(all, p, second);
    TwinIff(all, p);
    if first.Ok? && first.persisted { PersistedStays(t, rows, i); }
  }

  lemma {:induction false} PersistedStays(t: Table, rows: seq<Raw>, i: nat)
    requires i < |rows| && rows[i].Valid?
    requires rows[i].p.id !in Imported(t, rows[..i]) && !HasTwin(Imported(t, rows[..i]), rows[i].p)
    ensures rows[i].p.id in Imported(t, rows) && Imported(t, rows)[rows[i].p.id] == rows[i].p
    decreases |rows|
  {
    var init := rows[..|rows| - 1];
    if i == |init| {
      TwinIff(Imported(t, init), rows[i].p);
    } else {
      assert init[..i] == rows[..i];
      PersistedStays(t, init, i);
    }
  }

  // ---------------------------------------------------------------------------
  // The loop
  // ---------------------------------------------------------------------------

  datatype Response = Response(total: nat, persisted: nat, validated: nat, errors: nat, rows: seq<Outcome>)

  function CountErrors(os: seq<Outcome>): nat {
    if os == [] then 0 else CountErrors(os[..|os| - 1]) + if os[|os| - 1].Error? then 1 else 0
  }

  function CountPersisted(os: seq<Outcome>): nat {
    if os == [] then 0 else CountPersisted(os[..|os| - 1]) + if os[|os| - 1].Ok? && os[|os| - 1].persisted then 1 else 0
  }

  lemma CountNothing()
    ensures CountErrors([]) == 0 && CountPersisted([]) == 0
  {
  }

  lemma CountAppend(os: seq<Outcome>, o: Outcome)
    ensures CountErrors(os + [o]) == CountErrors(os) + if o.Error? then 1 else 0
    ensures CountPersisted(os + [o]) == CountPersisted(os) + if o.Ok? && o.persisted then 1 else 0
  {
    assert (os + [o])[..|os|] == os;
  }

  class OutageImport {
    var table: Table

    constructor (table: Table)
      ensures this.table == table
    {
      this.table := table;
    }

    method CheckDuplicate(p: Payload) returns (c: Checked)
      ensures Checks(table, p, c)
    {
      if p.id in table {
        return if table[p.id] == p then Existing(p.id) else Conflict;
      }
      var ds := Duplicates(table, p);
      if ds != {} {
        var d := Pick(ds);
        return Existing(d);
      }
      c := New;
    }

    /** create_or_get_existing; a conflict raises. */
    method CreateOrGetExisting(p: Payload) returns (o: Outcome)
      modifies this
      ensures Decides(old(table), Valid(p), o) && table == Stored(old(table), Valid(p))
    {
      var c := CheckDuplicate(p);
      o := OutcomeOf(p, c);
      if c == New { table := table[p.id := p]; }
    }

    /** One row of the file. */
    method ImportRow(row: Raw) returns (o: Outcome)
      modifies this
      ensures Decides(old(table), row, o) && table == Stored(old(table), row)
      ensures |table| == |old(table)| + if o.Ok? && o.persisted then 1 else 0
    {
      hide Checks, Duplicates;
      if row.Malformed? { return Error; }
      ghost var before := table;
      o := CreateOrGetExisting(row.p);
      PersistedMeansStored(before, row.p, o);
    }

    /** The partial-mode loop and the response it reports. */
    method ImportRows(rows: seq<Raw>) returns (r: Response)
      modifies this
      ensures table == Imported(old(table), rows)
      ensures |r.rows| == r.total == |rows|
      ensures forall i :: 0 <= i < |rows| ==> Decides(Imported(old(table), rows[..i]), rows[i], r.rows[i])
      ensures r.validated + r.errors == r.total
      ensures r.errors == CountErrors(r.rows) && r.persisted == CountPersisted(r.rows)
      ensures r.persisted == |table| - |old(table)|
    {
      hide Decides, Stored, CountErrors, CountPersisted;
      assert CountErrors([]) == 0 && CountPersisted([]) == 0 by { CountNothing(); }
      var outcomes: seq<Outcome> := [];
      var persisted, validated, errors := 0, 0, 0;
      var i := 0;
      assert rows[..0] == [];
      while i < |rows|
        invariant 0 <= i <= |rows| && |outcomes| == i
        invariant table == Imported(old(table), rows[..i])
        invariant forall k :: 0 <= k < i ==> Decides(Imported(old(table), rows[..k]), rows[k], outcomes[k])
        invariant validated + errors == i && errors == CountErrors(outcomes) && persisted == CountPersisted(outcomes)
        invariant persisted == |table| - |old(table)|
      {
        assert rows[..i + 1][..i] == rows[..i];
        var o := ImportRow(rows[i]);
        CountAppend(outcomes, o);
        outcomes := outcomes + [o];
        if o.Error? { errors := errors + 1; } else { validated := validated + 1; }
        if o.Ok? && o.persisted { persisted := persisted + 1; }
        i := i + 1;
      }
      assert rows[..|rows|] == rows;
      r := Response(|rows|, persisted, validated, errors, outcomes);
    }

    /** Importing the same file twice: the second run persists nothing. */
    method ImportTwice(rows: seq<Raw>) returns (first: Response, second: Response)
      modifies this
      ensures table == Imported(old(table), rows)
      ensures second.persisted == 0 && second.validated + second.errors == |rows|
    {
      first := ImportRows(rows);
      second := ImportRows(rows);
      SecondImportIsNoOp(old(table), rows);
    }
  }

  lemma PersistedMeansStored(t: Table, p: Payload, o: Outcome)
    requires Decides(t, Valid(p), o)
    ensures |Stored(t, Valid(p))| == |t| + if o.Ok? && o.persisted then 1 else 0
  {
    if o.Ok? && o.persisted { assert t[p.id := p].Keys == t.Keys + {p.id}; }
  }
}
