/** The canonical request form whose text is hashed: blank members are dropped and object
    members are put in key order at every depth (objects as in section 4 of RFC 8259). */
module Canonical {
  import opened Common

  /** Numbers and booleans are opaque. */
  datatype Scalar = Null | Text(text: string) | Other(id: int)

  datatype Json = Leaf(value: Scalar) | Arr(items: seq<Json>) | Obj(members: seq<Member>)

  /** Members in the order in which the dictionary lists them. */
  datatype Member = Member(key: string, value: Json)

  /** None, "", {} and [] */
  predicate Blank(j: Json) {
    j == Leaf(Null) || j == Leaf(Text("")) || j == Arr([]) || j == Obj([])
  }

  predicate UniqueKeys(ms: seq<Member>) {
    forall i, j :: 0 <= i < j < |ms| ==> ms[i].key != ms[j].key
  }

  // ---------------------------------------------------------------------------
  // The two passes of build()
  // ---------------------------------------------------------------------------

  /** _remove_nulls_and_empty: blankness is judged before the value itself is cleaned. */
  function Cleaned(j: Json): Json
    decreases j, 1
  {
    match j
    case Leaf(_) => j
    case Arr(xs) => Arr(CleanedItems(xs))
    case Obj(ms) => Obj(CleanedMembers(ms))
  }

  function CleanedItems(xs: seq<Json>): (r: seq<Json>)
    ensures |r| == |xs|
    decreases xs, 0
  {
    if xs == [] then [] else [Cleaned(xs[0])] + CleanedItems(xs[1..])
  }

  function CleanedMembers(ms: seq<Member>): seq<Member>
    decreases ms, 0
  {
    if ms == [] then []
    else (if Blank(ms[0].value) then [] else [Member(ms[0].key, Cleaned(ms[0].value))]) + CleanedMembers(ms[1..])
  }

  function InsertMember(m: Member, ms: seq<Member>): seq<Member> {
    if ms == [] || TextLess(m.key, ms[0].key) then [m] + ms else [ms[0]] + InsertMember(m, ms[1..])
  }

  function SortMembers(ms: seq<Member>): seq<Member> {
    if ms == [] then [] else InsertMember(ms[0], SortMembers(ms[1..]))
  }

  /** _canonicalize; members are sorted after their values are treated, which comes to the
      same since keys are unique and are not changed. */
  function Canon(norm: Scalar -> Scalar, j: Json): Json
    decreases j, 1
  {
    match j
    case Leaf(s) => Leaf(norm(s))
    case Arr(xs) => Arr(CanonItems(norm, xs))
    case Obj(ms) => Obj(SortMembers(CanonMembers(norm, ms)))
  }

  /** A value inside a container is normalised once before it is treated; normalising leaves
      containers alone. */
  function CanonInner(norm: Scalar -> Scalar, j: Json): Json
    decreases j, 2
  {
    match j
    case Leaf(s) => Leaf(norm(norm(s)))
    case _ => Canon(norm, j)
  }

  function CanonItems(norm: Scalar -> Scalar, xs: seq<Json>): (r: seq<Json>)
    ensures |r| == |xs|
    decreases xs, 0
  {
    if xs == [] then [] else [CanonInner(norm, xs[0])] + CanonItems(norm, xs[1..])
  }

  function CanonMembers(norm: Scalar -> Scalar, ms: seq<Member>): seq<Member>
    decreases ms, 0
  {
    if ms == [] then []
    else
      (if Blank(ms[0].value) then [] else [Member(ms[0].key, CanonInner(norm, ms[0].value))]) +
      CanonMembers(norm, ms[1..])
  }

  function Build(norm: Scalar -> Scalar, params: Json): Json {
    Canon(norm, Cleaned(params))
  }

  // ---------------------------------------------------------------------------
  // Requests that mean the same
  // ---------------------------------------------------------------------------

  /** Members agree up to order and up to blank ones on either side. */
  predicate MembersVary(ms: seq<Member>, ns: seq<Member>)
    decreases ms, 0
  {
    && (forall i :: 0 <= i < |ms| && !Blank(ms[i].value) ==>
          exists j :: 0 <= j < |ns| && ns[j].key == ms[i].key && Variant(ms[i].value, ns[j].value))
    && (forall j :: 0 <= j < |ns| && !Blank(ns[j].value) ==>
          exists i :: 0 <= i < |ms| && ms[i].key == ns[j].key && Variant(ms[i].value, ns[j].value))
  }

  /** Members are permuted at any depth, and blank members come and go in any object that
      has a member anyway. */
  predicate Variant(a: Json, b: Json)
    decreases a, 1
  {
    match (a, b)
    case (Leaf(s), Leaf(t)) => s == t
    case (Arr(xs), Arr(ys)) => |xs| == |ys| && forall i :: 0 <= i < |xs| ==> Variant(xs[i], ys[i])
    case (Obj(ms), Obj(ns)) => UniqueKeys(ms) && UniqueKeys(ns) && (ms == [] <==> ns == []) && MembersVary(ms, ns)
    case _ => false
  }

  /** At the top level even an empty object may gain blank members. */
  predicate SameRequest(a: Json, b: Json) {
    a.Obj? && b.Obj? && UniqueKeys(a.members) && UniqueKeys(b.members) && MembersVary(a.members, b.members)
  }

  lemma VariantBlank(a: Json, b: Json)
    requires Variant(a, b)
    ensures Blank(a) <==> Blank(b)
  {
  }

  // ---------------------------------------------------------------------------
  // Characterising the passes member by member
  // ---------------------------------------------------------------------------

  lemma {:induction false} CleanedMember(ms: seq<Member>, m: Member)
    ensures m in CleanedMembers(ms) <==>
              exists i :: 0 <= i < |ms| && !Blank(ms[i].value) && m == Member(ms[i].key, Cleaned(ms[i].value))
  {
    if ms != [] {
      CleanedMember(ms[1..], m);
      if exists i :: 0 <= i < |ms| && !Blank(ms[i].value) && m == Member(ms[i].key, Cleaned(ms[i].value)) {
        var i :| 0 <= i < |ms| && !Blank(ms[i].value) && m == Member(ms[i].key, Cleaned(ms[i].value));
        if i > 0 { assert ms[1..][i - 1] == ms[i]; }
      }
      if m in CleanedMembers(ms[1..]) {
        var i :| 0 <= i < |ms[1..]| && !Blank(ms[1..][i].value)
            && m == Member(ms[1..][i].key, Cleaned(ms[1..][i].value));
        assert ms[i + 1] == ms[1..][i];
      }
    }
  }

  lemma {:induction false} CanonMember(norm: Scalar -> Scalar, ms: seq<Member>, m: Member)
    ensures m in CanonMembers(norm, ms) <==>
              exists i :: 0 <= i < |ms| && !Blank(ms[i].value) && m == Member(ms[i].key, CanonInner(norm, ms[i].value))
  {
    if ms != [] {
      CanonMember(norm, ms[1..], m);
      if exists i :: 0 <= i < |ms| && !Blank(ms[i].value) && m == Member(ms[i].key, CanonInner(norm, ms[i].value)) {
        var i :| 0 <= i < |ms| && !Blank(ms[i].value) && m == Member(ms[i].key, CanonInner(norm, ms[i].value));
        if i > 0 { assert ms[1..][i - 1] == ms[i]; }
      }
      if m in CanonMembers(norm, ms[1..]) {
        var i :| 0 <= i < |ms[1..]| && !Blank(ms[1..][i].value)
            && m == Member(ms[1..][i].key, CanonInner(norm, ms[1..][i].value));
        assert ms[i + 1] == ms[1..][i];
      }
    }
  }

  /** Both passes keep keys unique. */
  lemma {:induction false} CleanedUnique(ms: seq<Member>)
    requires UniqueKeys(ms)
    ensures UniqueKeys(CleanedMembers(ms))
  {
    if ms != [] {
      CleanedUnique(ms[1..]);
      var rest := CleanedMembers(ms[1..]);
      forall j | 0 <= j < |rest| ensures rest[j].key != ms[0].key {
        CleanedMember(ms[1..], rest[j]);
        assert rest[j] in rest;
      }
    }
  }

  lemma {:induction false} CanonUnique(norm: Scalar -> Scalar, ms: seq<Member>)
    requires UniqueKeys(ms)
    ensures UniqueKeys(CanonMembers(norm, ms))
  {
    if ms != [] {
      CanonUnique(norm, ms[1..]);
      var rest := CanonMembers(norm, ms[1..]);
      forall j | 0 <= j < |rest| ensures rest[j].key != ms[0].key {
        CanonMember(norm, ms[1..], rest[j]);
        assert rest[j] in rest;
      }
    }
  }

  // ---------------------------------------------------------------------------
  // Sorting by key
  // ---------------------------------------------------------------------------

  predicate Ascending(ms: seq<Member>) {
    forall i, j :: 0 <= i < j < |ms| ==> TextLess(ms[i].key, ms[j].key)
  }

  lemma {:induction false} InsertSorted(m: Member, ms: seq<Member>)
    requires Ascending(ms) && forall x :: x in ms ==> x.key != m.key
    ensures Ascending(InsertMember(m, ms))
    ensures forall x :: x in InsertMember(m, ms) <==> x == m || x in ms
  {
    if ms == [] {
    } else if TextLess(m.key, ms[0].key) {
      forall j | 0 <= j < |ms| ensures TextLess(m.key, ms[j].key) {
        if j > 0 { TextLessTransitive(m.key, ms[0].key, ms[j].key); }
      }
    } else {
      InsertSorted(m, ms[1..]);
      TextLessTotal(m.key, ms[0].key);
      var rest := InsertMember(m, ms[1..]);
      forall j | 0 <= j < |rest| ensures TextLess(ms[0].key, rest[j].key) {
        assert rest[j] in rest;
      }
    }
  }

  lemma {:induction false} SortSorted(ms: seq<Member>)
    requires UniqueKeys(ms)
    ensures Ascending(SortMembers(ms))
    ensures forall x :: x in SortMembers(ms) <==> x in ms
  {
    if ms != [] {
      SortSorted(ms[1..]);
      InsertSorted(ms[0], SortMembers(ms[1..]));
    }
  }

  lemma {:induction false} AscendingUnique(a: seq<Member>, b: seq<Member>)
    requires Ascending(a) && Ascending(b) && forall x :: x in a <==> x in b
    ensures a == b
  {
    assert a != [] ==> a[0] in b;
    assert b != [] ==> b[0] in a;
    if a != [] && b != [] {
      var i :| 0 <= i < |b| && b[i] == a[0];
      var j :| 0 <= j < |a| && a[j] == b[0];
      if i > 0 && j > 0 {
        TextLessTransitive(a[0].key, b[0].key, a[0].key);
        TextLessIrreflexive(a[0].key);
        assert false;
      }
      forall x | x in a[1..] ensures x in b[1..] { InTail(a, b, x); }
      forall x | x in b[1..] ensures x in a[1..] { InTail(b, a, x); }
      AscendingUnique(a[1..], b[1..]);
      assert a == [a[0]] + a[1..] && b == [b[0]] + b[1..];
    }
  }

  lemma InTail(a: seq<Member>, b: seq<Member>, x: Member)
    requires Ascending(a) && |a| > 0 && |b| > 0 && a[0] == b[0] && x in a[1..] && x in b
    ensures x in b[1..]
  {
    var k :| 1 <= k < |a| && a[k] == x;
    TextLessIrreflexive(x.key);
    assert x != a[0];
    assert b == [b[0]] + b[1..];
  }

  // ---------------------------------------------------------------------------
  // Stability
  // ---------------------------------------------------------------------------

  /** A variant is emptied by the first pass exactly when the original is. */
  lemma CleanedBlank(a: Json, b: Json)
    requires Variant(a, b)
    ensures Blank(Cleaned(a)) <==> Blank(Cleaned(b))
  {
    if a.Obj? {
      CleanedEmpty(a.members);
      CleanedEmpty(b.members);
      forall i | 0 <= i < |a.members| && !Blank(a.members[i].value)
        ensures exists j :: 0 <= j < |b.members| && !Blank(b.members[j].value) {
        var j :| 0 <= j < |b.members| && b.members[j].key == a.members[i].key
            && Variant(a.members[i].value, b.members[j].value);
        VariantBlank(a.members[i].value, b.members[j].value);
      }
      forall j | 0 <= j < |b.members| && !Blank(b.members[j].value)
        ensures exists i :: 0 <= i < |a.members| && !Blank(a.members[i].value) {
        var i :| 0 <= i < |a.members| && a.members[i].key == b.members[j].key
            && Variant(a.members[i].value, b.members[j].value);
        VariantBlank(a.members[i].value, b.members[j].value);
      }
    }
  }

  lemma CleanedEmpty(ms: seq<Member>)
    ensures CleanedMembers(ms) == [] <==> forall i :: 0 <= i < |ms| ==> Blank(ms[i].value)
  {
    if CleanedMembers(ms) != [] {
      CleanedMember(ms, CleanedMembers(ms)[0]);
    }
    forall i | 0 <= i < |ms| && !Blank(ms[i].value) ensures CleanedMembers(ms) != [] {
      CleanedMember(ms, Member(ms[i].key, Cleaned(ms[i].value)));
    }
  }

  /** What survives both passes of an object: a member neither blank nor emptied. */
  predicate Survives(j: Json) {
    !Blank(j) && !Blank(Cleaned(j))
  }

  lemma BuiltMember(norm: Scalar -> Scalar, ms: seq<Member>, m: Member)
    ensures m in CanonMembers(norm, CleanedMembers(ms)) <==>
              exists i ::
                && 0 <= i < |ms| && Survives(ms[i].value)
                && m == Member(ms[i].key, CanonInner(norm, Cleaned(ms[i].value)))
  {
    var cs := CleanedMembers(ms);
    CanonMember(norm, cs, m);
    if m in CanonMembers(norm, cs) {
      var k :| 0 <= k < |cs| && !Blank(cs[k].value) && m == Member(cs[k].key, CanonInner(norm, cs[k].value));
      CleanedMember(ms, cs[k]);
      assert cs[k] in cs;
    }
    if exists i :: 0 <= i < |ms| && Survives(ms[i].value)
        && m == Member(ms[i].key, CanonInner(norm, Cleaned(ms[i].value))) {
      var i :| 0 <= i < |ms| && Survives(ms[i].value) && m == Member(ms[i].key, CanonInner(norm, Cleaned(ms[i].value)));
      CleanedMember(ms, Member(ms[i].key, Cleaned(ms[i].value)));
      assert Member(ms[i].key, Cleaned(ms[i].value)) in cs;
    }
  }

  /** Objects whose members vary are built into the same object. */
  lemma {:induction false} MembersStable(norm: Scalar -> Scalar, ms: seq<Member>, ns: seq<Member>)
    requires UniqueKeys(ms) && UniqueKeys(ns) && MembersVary(ms, ns)
    ensures Build(norm, Obj(ms)) == Build(norm, Obj(ns))
    decreases ms, 0
  {
    var a, b := CanonMembers(norm, CleanedMembers(ms)), CanonMembers(norm, CleanedMembers(ns));
    CleanedUnique(ms);
    CleanedUnique(ns);
    CanonUnique(norm, CleanedMembers(ms));
    CanonUnique(norm, CleanedMembers(ns));
    forall m | m in a ensures m in b {
      BuiltMember(norm, ms, m);
      BuiltMember(norm, ns, m);
      var i :| 0 <= i < |ms| && Survives(ms[i].value) && m == Member(ms[i].key, CanonInner(norm, Cleaned(ms[i].value)));
      var j :| 0 <= j < |ns| && ns[j].key == ms[i].key && Variant(ms[i].value, ns[j].value);
      PairStable(norm, ms[i].value, ns[j].value);
    }
    forall m | m in b ensures m in a {
      BuiltMember(norm, ms, m);
      BuiltMember(norm, ns, m);
      var j :| 0 <= j < |ns| && Survives(ns[j].value) && m == Member(ns[j].key, CanonInner(norm, Cleaned(ns[j].value)));
      var i :| 0 <= i < |ms| && ms[i].key == ns[j].key && Variant(ms[i].value, ns[j].value);
      PairStable(norm, ms[i].value, ns[j].value);
    }
    SortSorted(a);
    SortSorted(b);
    AscendingUnique(SortMembers(a), SortMembers(b));
  }

  lemma {:induction false} PairStable(norm: Scalar -> Scalar, v: Json, w: Json)
    requires Variant(v, w)
    ensures Survives(v) <==> Survives(w)
    ensures CanonInner(norm, Cleaned(v)) == CanonInner(norm, Cleaned(w))
    decreases v, 2
  {
    VariantBlank(v, w);
    CleanedBlank(v, w);
    VariantStable(norm, v, w);
  }

  lemma {:induction false} VariantStable(norm: Scalar -> Scalar, a: Json, b: Json)
    requires Variant(a, b)
    ensures Build(norm, a) == Build(norm, b)
    decreases a, 1
  {
    match a
    case Leaf(_) =>
    case Arr(xs) => ItemsStable(norm, xs, b.items);
    case Obj(ms) => MembersStable(norm, ms, b.members);
  }

  lemma {:induction false} ItemsStable(norm: Scalar -> Scalar, xs: seq<Json>, ys: seq<Json>)
    requires |xs| == |ys| && forall i :: 0 <= i < |xs| ==> Variant(xs[i], ys[i])
    ensures CanonItems(norm, CleanedItems(xs)) == CanonItems(norm, CleanedItems(ys))
    decreases xs, 0
  {
    if xs != [] {
      PairStable(norm, xs[0], ys[0]);
      ItemsStable(norm, xs[1..], ys[1..]);
      assert CleanedItems(xs)[1..] == CleanedItems(xs[1..]);
      assert CleanedItems(ys)[1..] == CleanedItems(ys[1..]);
    }
  }

  /** The hashed form is the same for every request that differs only by the order of members
      at any depth, or by blank members in the top-level object or in objects that have one. */
  lemma CanonicalFormIsStable(norm: Scalar -> Scalar, a: Json, b: Json)
    requires SameRequest(a, b)
    ensures Build(norm, a) == Build(norm, b)
  {
    MembersStable(norm, a.members, b.members);
  }

  /** Survival said on the value itself: not null and not the empty text, a list with an item, or
      an object with a member that is neither null nor an empty text, object or list. */
  predicate Lives(j: Json) {
    match j
    case Leaf(s) => s != Null && s != Text("")
    case Arr(xs) => |xs| > 0
    case Obj(ms) =>
      exists i :: 0 <= i < |ms| && ms[i].value !in {Leaf(Null), Leaf(Text("")), Arr([]), Obj([])}
  }

  lemma SurvivesIffLives(j: Json)
    ensures Survives(j) <==> Lives(j)
  {
    match j
    case Leaf(_) =>
    case Arr(xs) => assert |CleanedItems(xs)| == |xs|;
    case Obj(ms) =>
      CleanedEmpty(ms);
      forall i | 0 <= i < |ms|
        ensures Blank(ms[i].value) <==> ms[i].value in {Leaf(Null), Leaf(Text("")), Arr([]), Obj([])} {}
  }

  /** The object holds a surviving member with this key that is built into this value. */
  ghost predicate Keeps(norm: Scalar -> Scalar, ms: seq<Member>, m: Member) {
    exists i :: 0 <= i < |ms| && Survives(ms[i].value) && m == Member(ms[i].key, CanonInner(norm, Cleaned(ms[i].value)))
  }

  /** Nothing else is forgotten: two objects have the same form exactly when the same keys
      survive in both with values of the same form. */
  lemma SameFormIff(norm: Scalar -> Scalar, ms: seq<Member>, ns: seq<Member>)
    requires UniqueKeys(ms) && UniqueKeys(ns)
    ensures Build(norm, Obj(ms)) == Build(norm, Obj(ns)) <==> forall m :: Keeps(norm, ms, m) <==> Keeps(norm, ns, m)
  {
    hide Survives, CanonInner, CleanedMembers, CanonMembers;
    var a, b := CanonMembers(norm, CleanedMembers(ms)), CanonMembers(norm, CleanedMembers(ns));
    CleanedUnique(ms);
    CleanedUnique(ns);
    CanonUnique(norm, CleanedMembers(ms));
    CanonUnique(norm, CleanedMembers(ns));
    SortSorted(a);
    SortSorted(b);
    forall m ensures (Keeps(norm, ms, m) <==> m in SortMembers(a)) && (Keeps(norm, ns, m) <==> m in SortMembers(b)) {
      BuiltMember(norm, ms, m);
      BuiltMember(norm, ns, m);
    }
    if forall m :: Keeps(norm, ms, m) <==> Keeps(norm, ns, m) {
      AscendingUnique(SortMembers(a), SortMembers(b));
    }
  }

  // ---------------------------------------------------------------------------
  // Exactly which requests share a form
  // ---------------------------------------------------------------------------

  /** Two requests say the same: scalars that normalise to the same value, lists that agree item
      by item, and objects in which the same keys live, in any order, with values that agree.
      A scalar inside a container is normalised twice. */
  ghost predicate Agree(norm: Scalar -> Scalar, a: Json, b: Json, inner: bool)
    decreases a, 1
  {
    match (a, b)
    case (Leaf(s), Leaf(t)) => if inner then norm(norm(s)) == norm(norm(t)) else norm(s) == norm(t)
    case (Arr(xs), Arr(ys)) => |xs| == |ys| && forall i :: 0 <= i < |xs| ==> Agree(norm, xs[i], ys[i], true)
    case (Obj(ms), Obj(ns)) => MembersAgree(norm, ms, ns)
    case _ => false
  }

  ghost predicate MembersAgree(norm: Scalar -> Scalar, ms: seq<Member>, ns: seq<Member>)
    decreases ms, 0
  {
    && (forall i :: 0 <= i < |ms| && Lives(ms[i].value) ==>
          exists j :: 0 <= j < |ns| && ns[j].key == ms[i].key && Matches(norm, ms[i].value, ns[j].value))
    && (forall j :: 0 <= j < |ns| && Lives(ns[j].value) ==>
          exists i :: 0 <= i < |ms| && ms[i].key == ns[j].key && Matches(norm, ms[i].value, ns[j].value))
  }

  /** Both values live, and they agree. */
  ghost predicate Matches(norm: Scalar -> Scalar, a: Json, b: Json)
    decreases a, 2
  {
    Lives(a) && Lives(b) && Agree(norm, a, b, true)
  }

  /** What a value is built into, at the top or inside a container. */
  function Form(norm: Scalar -> Scalar, j: Json, inner: bool): Json {
    if inner then CanonInner(norm, Cleaned(j)) else Build(norm, j)
  }

  /** Two requests have the same canonical form exactly when they say the same: apart from the
      order of members and the members that do not live, nothing is forgotten. */
  lemma {:induction false} SameFormIffAgree(norm: Scalar -> Scalar, a: Json, b: Json, inner: bool)
    requires WellFormed(a) && WellFormed(b)
    ensures Form(norm, a, inner) == Form(norm, b, inner) <==> Agree(norm, a, b, inner)
    decreases a, 1
  {
    match (a, b)
    case (Leaf(_), Leaf(_)) =>
    case (Arr(xs), Arr(ys)) => ItemsAgree(norm, xs, ys);
    case (Obj(ms), Obj(ns)) => ObjectsAgree(norm, ms, ns);
    case _ =>
      FormKind(norm, a, inner);
      FormKind(norm, b, inner);
  }

  lemma FormKind(norm: Scalar -> Scalar, j: Json, inner: bool)
    ensures Form(norm, j, inner).Leaf? == j.Leaf? && Form(norm, j, inner).Arr? == j.Arr?
  {
    match j
    case Leaf(_) =>
    case Arr(xs) =>
      ArrForms(norm, xs);
      InnerIsBuild(norm, j);
    case Obj(_) => InnerIsBuild(norm, j);
  }

  lemma {:induction false} ItemsAgree(norm: Scalar -> Scalar, xs: seq<Json>, ys: seq<Json>)
    requires WellFormed(Arr(xs)) && WellFormed(Arr(ys))
    ensures Build(norm, Arr(xs)) == Build(norm, Arr(ys)) <==>
              |xs| == |ys| && forall i :: 0 <= i < |xs| ==> Agree(norm, xs[i], ys[i], true)
    decreases xs, 0
  {
    hide Agree, CanonInner, Cleaned;
    var out, out' := CanonItems(norm, CleanedItems(xs)), CanonItems(norm, CleanedItems(ys));
    ArrForms(norm, xs);
    ArrForms(norm, ys);
    if |xs| == |ys| {
      forall i | 0 <= i < |xs| ensures out[i] == out'[i] <==> Agree(norm, xs[i], ys[i], true) {
        BuiltItem(norm, xs, i);
        BuiltItem(norm, ys, i);
        SameFormIffAgree(norm, xs[i], ys[i], true);
      }
    }
  }

  lemma {:induction false} ObjectsAgree(norm: Scalar -> Scalar, ms: seq<Member>, ns: seq<Member>)
    requires WellFormed(Obj(ms)) && WellFormed(Obj(ns))
    ensures Build(norm, Obj(ms)) == Build(norm, Obj(ns)) <==> MembersAgree(norm, ms, ns)
    decreases ms, 0
  {
    hide Agree, Form, Inner, CanonInner, Cleaned, Build, Survives, Lives, Keeps, MembersAgree;
    SameFormIff(norm, ms, ns);
    forall i, j | 0 <= i < |ms| && 0 <= j < |ns|
      ensures Inner(norm, ms[i].value) == Inner(norm, ns[j].value) <==> Agree(norm, ms[i].value, ns[j].value, true)
    {
      SameFormIffAgree(norm, ms[i].value, ns[j].value, true);
      InnerIsForm(norm, ms[i].value);
      InnerIsForm(norm, ns[j].value);
    }
    MatchingIff(norm, ms, ns);
  }

  function Inner(norm: Scalar -> Scalar, j: Json): Json {
    CanonInner(norm, Cleaned(j))
  }

  lemma InnerIsForm(norm: Scalar -> Scalar, j: Json)
    ensures Form(norm, j, true) == Inner(norm, j)
  {
  }

  /** The built member m comes from a living member. */
  predicate IsBuiltFrom(norm: Scalar -> Scalar, m: Member, from: Member) {
    Lives(from.value) && m.key == from.key && m.value == Inner(norm, from.value)
  }

  lemma KeepsIff(norm: Scalar -> Scalar, ms: seq<Member>, m: Member)
    ensures Keeps(norm, ms, m) <==>
              exists i :: 0 <= i < |ms| && IsBuiltFrom(norm, m, ms[i])
  {
    hide Lives, Survives, CanonInner, Cleaned;
    forall i | 0 <= i < |ms| ensures Survives(ms[i].value) <==> Lives(ms[i].value) { SurvivesIffLives(ms[i].value); }
    if Keeps(norm, ms, m) {
      var i :| 0 <= i < |ms| && Survives(ms[i].value) && m == Member(ms[i].key, CanonInner(norm, Cleaned(ms[i].value)));
      assert IsBuiltFrom(norm, m, ms[i]);
    }
    if i :| 0 <= i < |ms| && IsBuiltFrom(norm, m, ms[i]) {
      assert Survives(ms[i].value) && m == Member(ms[i].key, CanonInner(norm, Cleaned(ms[i].value)));
    }
  }

  /** Agreement of the values is equality of what they are built into. */
  ghost predicate Linked(norm: Scalar -> Scalar, ms: seq<Member>, ns: seq<Member>) {
    forall i, j :: 0 <= i < |ms| && 0 <= j < |ns| ==>
      (Inner(norm, ms[i].value) == Inner(norm, ns[j].value) <==> Agree(norm, ms[i].value, ns[j].value, true))
  }

  /** Equal sets of kept members are members that match in both directions. */
  lemma MatchingIff(norm: Scalar -> Scalar, ms: seq<Member>, ns: seq<Member>)
    requires Linked(norm, ms, ns)
    ensures (forall m :: Keeps(norm, ms, m) <==> Keeps(norm, ns, m)) <==> MembersAgree(norm, ms, ns)
  {
    hide Linked, Matches, Lives, Keeps;
    if forall m :: Keeps(norm, ms, m) <==> Keeps(norm, ns, m) {
      forall i | 0 <= i < |ms| && Lives(ms[i].value)
        ensures exists j :: 0 <= j < |ns| && ns[j].key == ms[i].key && Matches(norm, ms[i].value, ns[j].value)
      {
        MatchOf(norm, ms, ns, i);
      }
      forall j | 0 <= j < |ns| && Lives(ns[j].value)
        ensures exists i :: 0 <= i < |ms| && ms[i].key == ns[j].key && Matches(norm, ms[i].value, ns[j].value)
      {
        MatchedBy(norm, ms, ns, j);
      }
    }
    if MembersAgree(norm, ms, ns) {
      forall m ensures Keeps(norm, ms, m) <==> Keeps(norm, ns, m) { AgreeingKeeps(norm, ms, ns, m); }
    }
  }

  lemma MatchOf(norm: Scalar -> Scalar, ms: seq<Member>, ns: seq<Member>, i: nat)
    requires Linked(norm, ms, ns) && i < |ms| && Lives(ms[i].value)
    requires forall m :: Keeps(norm, ms, m) ==> Keeps(norm, ns, m)
    ensures exists j :: 0 <= j < |ns| && ns[j].key == ms[i].key && Matches(norm, ms[i].value, ns[j].value)
  {
    hide Agree, Inner, Lives, Keeps;
    var m := Member(ms[i].key, Inner(norm, ms[i].value));
    assert IsBuiltFrom(norm, m, ms[i]);
    KeepsIff(norm, ms, m);
    KeepsIff(norm, ns, m);
    var j :| 0 <= j < |ns| && IsBuiltFrom(norm, m, ns[j]);
    assert Matches(norm, ms[i].value, ns[j].value);
  }

  lemma MatchedBy(norm: Scalar -> Scalar, ms: seq<Member>, ns: seq<Member>, j: nat)
    requires Linked(norm, ms, ns) && j < |ns| && Lives(ns[j].value)
    requires forall m :: Keeps(norm, ns, m) ==> Keeps(norm, ms, m)
    ensures exists i :: 0 <= i < |ms| && ms[i].key == ns[j].key && Matches(norm, ms[i].value, ns[j].value)
  {
    hide Agree, Inner, Lives, Keeps;
    var m := Member(ns[j].key, Inner(norm, ns[j].value));
    assert IsBuiltFrom(norm, m, ns[j]);
    KeepsIff(norm, ms, m);
    KeepsIff(norm, ns, m);
    var i :| 0 <= i < |ms| && IsBuiltFrom(norm, m, ms[i]);
    assert Matches(norm, ms[i].value, ns[j].value);
  }

  lemma AgreeingKeeps(norm: Scalar -> Scalar, ms: seq<Member>, ns: seq<Member>, m: Member)
    requires Linked(norm, ms, ns) && MembersAgree(norm, ms, ns)
    ensures Keeps(norm, ms, m) <==> Keeps(norm, ns, m)
  {
    hide Agree, Inner, Lives, Keeps, MembersAgree, Linked, IsBuiltFrom, Matches;
    KeepsIff(norm, ms, m);
    KeepsIff(norm, ns, m);
    if i :| 0 <= i < |ms| && IsBuiltFrom(norm, m, ms[i]) {
      var j := PartnerOf(norm, ms, ns, i, m);
      assert Keeps(norm, ns, m);
    }
    if j :| 0 <= j < |ns| && IsBuiltFrom(norm, m, ns[j]) {
      var i := PartnerBy(norm, ms, ns, j, m);
      assert Keeps(norm, ms, m);
    }
  }

  lemma PartnerOf(norm: Scalar -> Scalar, ms: seq<Member>, ns: seq<Member>, i: nat, m: Member) returns (j: nat)
    requires Linked(norm, ms, ns) && MembersAgree(norm, ms, ns) && i < |ms| && IsBuiltFrom(norm, m, ms[i])
    ensures j < |ns| && IsBuiltFrom(norm, m, ns[j])
  {
    hide Agree, Inner, Lives;
    j :| 0 <= j < |ns| && ns[j].key == ms[i].key && Matches(norm, ms[i].value, ns[j].value);
  }

  lemma PartnerBy(norm: Scalar -> Scalar, ms: seq<Member>, ns: seq<Member>, j: nat, m: Member) returns (i: nat)
    requires Linked(norm, ms, ns) && MembersAgree(norm, ms, ns) && j < |ns| && IsBuiltFrom(norm, m, ns[j])
    ensures i < |ms| && IsBuiltFrom(norm, m, ms[i])
  {
    hide Agree, Inner, Lives;
    i :| 0 <= i < |ms| && ms[i].key == ns[j].key && Matches(norm, ms[i].value, ns[j].value);
  }

  // ---------------------------------------------------------------------------
  // The edits that the relation covers
  // ---------------------------------------------------------------------------

  /** Dictionaries have unique keys at every depth. */
  predicate WellFormed(j: Json) {
    match j
    case Leaf(_) => true
    case Arr(xs) => forall i :: 0 <= i < |xs| ==> WellFormed(xs[i])
    case Obj(ms) => UniqueKeys(ms) && forall i :: 0 <= i < |ms| ==> WellFormed(ms[i].value)
  }

  lemma {:induction false} VariantOfItself(j: Json)
    requires WellFormed(j)
    ensures Variant(j, j)
  {
    match j
    case Leaf(_) =>
    case Arr(xs) =>
      forall i | 0 <= i < |xs| ensures Variant(xs[i], xs[i]) { VariantOfItself(xs[i]); }
    case Obj(ms) =>
      forall i | 0 <= i < |ms| ensures Variant(ms[i].value, ms[i].value) { VariantOfItself(ms[i].value); }
  }

  /** Listing the members of an object in another order. */
  lemma ReorderingIsVariant(ms: seq<Member>, ns: seq<Member>)
    requires WellFormed(Obj(ms)) && UniqueKeys(ns) && |ms| == |ns| && forall m :: m in ms <==> m in ns
    ensures Variant(Obj(ms), Obj(ns))
  {
    forall i | 0 <= i < |ms|
      ensures exists j :: 0 <= j < |ns| && ns[j].key == ms[i].key && Variant(ms[i].value, ns[j].value) {
      assert ms[i] in ns;
      VariantOfItself(ms[i].value);
    }
    forall j | 0 <= j < |ns|
      ensures exists i :: 0 <= i < |ms| && ms[i].key == ns[j].key && Variant(ms[i].value, ns[j].value) {
      assert ns[j] in ms;
      VariantOfItself(ns[j].value);
    }
  }

  /** Adding a blank member anywhere in an object. */
  lemma BlankMemberIsSame(ms: seq<Member>, at: nat, m: Member)
    requires WellFormed(Obj(ms)) && at <= |ms| && Blank(m.value) && forall i :: 0 <= i < |ms| ==> ms[i].key != m.key
    ensures SameRequest(Obj(ms), Obj(ms[..at] + [m] + ms[at..]))
    ensures ms != [] ==> Variant(Obj(ms), Obj(ms[..at] + [m] + ms[at..]))
  {
    hide WellFormed, Variant, MembersVary, UniqueKeys, Blank;
    var ns := ms[..at] + [m] + ms[at..];
    forall i | 0 <= i < |ms| ensures Variant(ms[i].value, ms[i].value) { MemberIsVariant(ms, i); }
    forall i | 0 <= i < |ms| ensures ns[if i < at then i else i + 1] == ms[i] {}
    forall j | 0 <= j < |ns| && j != at ensures ns[j] == ms[if j < at then j else j - 1] {}
    UniqueIn(ms);
    InsertedMemberVaries(ms, at, m, ns);
    ObjectsVary(ms, ns);
  }

  lemma ObjectsVary(ms: seq<Member>, ns: seq<Member>)
    requires UniqueKeys(ms) && UniqueKeys(ns) && MembersVary(ms, ns)
    ensures SameRequest(Obj(ms), Obj(ns))
    ensures (ms == [] <==> ns == []) ==> Variant(Obj(ms), Obj(ns))
  {
    hide UniqueKeys, MembersVary;
  }

  lemma MemberIsVariant(ms: seq<Member>, i: nat)
    requires WellFormed(Obj(ms)) && i < |ms|
    ensures Variant(ms[i].value, ms[i].value)
  {
    VariantOfItself(ms[i].value);
  }

  lemma UniqueIn(ms: seq<Member>)
    requires WellFormed(Obj(ms))
    ensures UniqueKeys(ms)
  {
  }

  lemma InsertedMemberVaries(ms: seq<Member>, at: nat, m: Member, ns: seq<Member>)
    requires UniqueKeys(ms) && at <= |ms| && Blank(m.value) && forall i :: 0 <= i < |ms| ==> ms[i].key != m.key
    requires |ns| == |ms| + 1 && ns[at] == m
    requires forall i :: 0 <= i < |ms| ==> Variant(ms[i].value, ms[i].value)
    requires forall i :: 0 <= i < |ms| ==> ns[if i < at then i else i + 1] == ms[i]
    requires forall j :: 0 <= j < |ns| && j != at ==> ns[j] == ms[if j < at then j else j - 1]
    ensures UniqueKeys(ns) && MembersVary(ms, ns)
  {
    hide Blank, Variant;
    forall i | 0 <= i < |ms|
      ensures exists j :: 0 <= j < |ns| && ns[j].key == ms[i].key && Variant(ms[i].value, ns[j].value)
    {
      assert ns[if i < at then i else i + 1] == ms[i];
    }
    forall j | 0 <= j < |ns| && !Blank(ns[j].value)
      ensures exists i :: 0 <= i < |ms| && ms[i].key == ns[j].key && Variant(ms[i].value, ns[j].value)
    {
      assert ns[j] == ms[if j < at then j else j - 1];
    }
  }

  // ---------------------------------------------------------------------------
  // Edits at any depth
  // ---------------------------------------------------------------------------

  predicate HasChild(j: Json, i: nat) {
    (j.Arr? && i < |j.items|) || (j.Obj? && i < |j.members|)
  }

  function Child(j: Json, i: nat): (c: Json)
    requires HasChild(j, i)
    ensures c < j
  {
    if j.Arr? then j.items[i] else assert j.members[i] < j; j.members[i].value
  }

  /** Replaces one item of a list, or the value of one member of an object. */
  function WithChild(j: Json, i: nat, w: Json): Json
    requires HasChild(j, i)
  {
    if j.Arr? then Arr(j.items[i := w]) else Obj(j.members[i := Member(j.members[i].key, w)])
  }

  /** A path names a position by the child to take at each level. */
  predicate HasPath(j: Json, path: seq<nat>) {
    path == [] || (HasChild(j, path[0]) && HasPath(Child(j, path[0]), path[1..]))
  }

  function At(j: Json, path: seq<nat>): Json
    requires HasPath(j, path)
  {
    if path == [] then j else At(Child(j, path[0]), path[1..])
  }

  function Edited(j: Json, path: seq<nat>, w: Json): Json
    requires HasPath(j, path)
  {
    if path == [] then w else WithChild(j, path[0], Edited(Child(j, path[0]), path[1..], w))
  }

  lemma ChildVariant(j: Json, i: nat, w: Json)
    requires WellFormed(j) && HasChild(j, i) && Variant(Child(j, i), w)
    ensures Variant(j, WithChild(j, i, w))
  {
    match j
    case Arr(xs) =>
      forall k | 0 <= k < |xs| && k != i ensures Variant(xs[k], xs[k]) { VariantOfItself(xs[k]); }
    case Obj(ms) =>
      var ns := ms[i := Member(ms[i].key, w)];
      forall k | 0 <= k < |ms| ensures ns[k].key == ms[k].key && Variant(ms[k].value, ns[k].value) {
        if k != i { VariantOfItself(ms[k].value); }
      }
  }

  /** A variant put in the place of a value at any depth makes a variant of the whole. */
  lemma {:induction false} EditIsVariant(j: Json, path: seq<nat>, w: Json)
    requires WellFormed(j) && HasPath(j, path) && Variant(At(j, path), w)
    ensures Variant(j, Edited(j, path, w))
    decreases |path|
  {
    if path != [] {
      EditIsVariant(Child(j, path[0]), path[1..], w);
      ChildVariant(j, path[0], Edited(Child(j, path[0]), path[1..], w));
    }
  }

  /** Reordering members, or adding a blank member to an object that has one, at any depth of
      any request leaves the canonical form as it was. */
  lemma EditIsStable(norm: Scalar -> Scalar, j: Json, path: seq<nat>, w: Json)
    requires WellFormed(j) && HasPath(j, path) && Variant(At(j, path), w)
    ensures Build(norm, j) == Build(norm, Edited(j, path, w))
  {
    EditIsVariant(j, path, w);
    VariantStable(norm, j, Edited(j, path, w));
  }

  // ---------------------------------------------------------------------------
  // Where the promise stops: emptied objects
  // ---------------------------------------------------------------------------

  /** What one member contributes to a built object. */
  lemma KeepsAtKey(norm: Scalar -> Scalar, ms: seq<Member>, at: nat, m: Member)
    requires UniqueKeys(ms) && at < |ms| && m.key == ms[at].key
    ensures Keeps(norm, ms, m) <==> Survives(ms[at].value) && m.value == CanonInner(norm, Cleaned(ms[at].value))
  {
    hide Survives, CanonInner, Cleaned;
  }

  lemma KeepsElsewhere(norm: Scalar -> Scalar, ms: seq<Member>, at: nat, w: Json, m: Member)
    requires at < |ms| && m.key != ms[at].key
    ensures Keeps(norm, ms, m) <==> Keeps(norm, ms[at := Member(ms[at].key, w)], m)
  {
    hide Survives, CanonInner, Cleaned;
    var ns := ms[at := Member(ms[at].key, w)];
    assert forall i :: 0 <= i < |ms| && i != at ==> ns[i] == ms[i];
  }

  /** Both values are dropped, or both survive and are built into the same thing. */
  ghost predicate SameFate(norm: Scalar -> Scalar, v: Json, w: Json) {
    && (Survives(v) <==> Survives(w))
    && (Survives(v) ==> CanonInner(norm, Cleaned(v)) == CanonInner(norm, Cleaned(w)))
  }

  /** Replacing a member's value leaves the form of the object as it was exactly when the old
      and the new value have the same fate. */
  lemma ReplacingIsStableIff(norm: Scalar -> Scalar, ms: seq<Member>, at: nat, w: Json)
    requires UniqueKeys(ms) && at < |ms|
    ensures Build(norm, Obj(ms)) == Build(norm, Obj(ms[at := Member(ms[at].key, w)])) <==>
              SameFate(norm, ms[at].value, w)
  {
    hide Survives, CanonInner, Cleaned, Keeps, Build;
    var k, v, ns := ms[at].key, ms[at].value, ms[at := Member(ms[at].key, w)];
    SameFormIff(norm, ms, ns);
    forall m: Member | m.key != k ensures Keeps(norm, ms, m) <==> Keeps(norm, ns, m) {
      KeepsElsewhere(norm, ms, at, w, m);
    }
    forall m: Member | m.key == k
      ensures Keeps(norm, ms, m) <==> Survives(v) && m.value == CanonInner(norm, Cleaned(v))
      ensures Keeps(norm, ns, m) <==> Survives(w) && m.value == CanonInner(norm, Cleaned(w))
    {
      KeepsAtKey(norm, ms, at, m);
      KeepsAtKey(norm, ns, at, m);
    }
    var m, n := Member(k, CanonInner(norm, Cleaned(v))), Member(k, CanonInner(norm, Cleaned(w)));
    assert (Keeps(norm, ms, m) <==> Keeps(norm, ns, m)) && (Keeps(norm, ms, n) <==> Keeps(norm, ns, n)) <==>
           SameFate(norm, v, w);
  }

  lemma {:induction false} BuiltItem(norm: Scalar -> Scalar, xs: seq<Json>, i: nat)
    requires i < |xs|
    ensures CanonItems(norm, CleanedItems(xs))[i] == CanonInner(norm, Cleaned(xs[i]))
  {
    assert CleanedItems(xs)[1..] == CleanedItems(xs[1..]);
    if i > 0 { BuiltItem(norm, xs[1..], i - 1); }
  }

  /** Items of a list are never dropped. */
  lemma ReplacingItemIsStableIff(norm: Scalar -> Scalar, xs: seq<Json>, at: nat, w: Json)
    requires at < |xs|
    ensures Build(norm, Arr(xs)) == Build(norm, Arr(xs[at := w])) <==>
              CanonInner(norm, Cleaned(xs[at])) == CanonInner(norm, Cleaned(w))
  {
    hide CanonInner, Cleaned;
    var ys := xs[at := w];
    var a, b := CanonItems(norm, CleanedItems(xs)), CanonItems(norm, CleanedItems(ys));
    forall i | 0 <= i < |xs|
      ensures a[i] == CanonInner(norm, Cleaned(xs[i])) && b[i] == CanonInner(norm, Cleaned(ys[i])) {
      BuiltItem(norm, xs, i);
      BuiltItem(norm, ys, i);
    }
    ArrForms(norm, xs);
    ArrForms(norm, ys);
  }

  lemma ArrForms(norm: Scalar -> Scalar, xs: seq<Json>)
    ensures Build(norm, Arr(xs)) == Arr(CanonItems(norm, CleanedItems(xs)))
  {
  }

  /** An object whose only member that could survive the first pass is the one at position i. */
  predicate NothingBeside(j: Json, i: nat) {
    j.Obj? && forall k :: 0 <= k < |j.members| && k != i ==> Blank(j.members[k].value)
  }

  /** The value at the path sits in an object without other non-blank members, and that object
      is itself a member of an object. */
  predicate Exposed(j: Json, path: seq<nat>)
    requires HasPath(j, path)
  {
    |path| >= 2 &&
    if |path| == 2 then j.Obj? && NothingBeside(Child(j, path[0]), path[1]) else Exposed(Child(j, path[0]), path[1..])
  }

  /** A container with something in it survives unless it is an object of blank members. */
  lemma SurvivesIff(j: Json)
    requires !Blank(j) && !j.Leaf?
    ensures Survives(j) <==> j.Arr? || exists i :: 0 <= i < |j.members| && !Blank(j.members[i].value)
  {
    if j.Obj? { CleanedEmpty(j.members); }
  }

  lemma WithChildSurvives(j: Json, i: nat, w: Json)
    requires HasChild(j, i) && !Blank(w)
    ensures Survives(WithChild(j, i, w))
    ensures Survives(j) <==> !(NothingBeside(j, i) && Blank(Child(j, i)))
  {
    SurvivesIff(j);
    SurvivesIff(WithChild(j, i, w));
    if j.Obj? { assert !Blank(WithChild(j, i, w).members[i].value); }
  }

  lemma ChildFormIff(norm: Scalar -> Scalar, j: Json, i: nat, w: Json)
    requires WellFormed(j) && HasChild(j, i)
    ensures Build(norm, j) == Build(norm, WithChild(j, i, w)) <==>
              if j.Obj? then SameFate(norm, Child(j, i), w)
              else CanonInner(norm, Cleaned(Child(j, i))) == CanonInner(norm, Cleaned(w))
  {
    hide Build, SameFate;
    if j.Obj? { ReplacingIsStableIff(norm, j.members, i, w); } else { ReplacingItemIsStableIff(norm, j.items, i, w); }
  }

  /** For containers the form as a child is the form as a request. */
  lemma InnerIsBuild(norm: Scalar -> Scalar, j: Json)
    requires !j.Leaf?
    ensures CanonInner(norm, Cleaned(j)) == Build(norm, j)
  {
  }

  /** Giving the empty object at a path a blank member changes the canonical form exactly when
      that object is exposed: its own object has nothing else to keep it from being emptied by
      the first pass, and is a member of an object, from which it would then be dropped. */
  lemma {:induction false} EmptyObjectEditIff(norm: Scalar -> Scalar, j: Json, path: seq<nat>, m: Member)
    requires WellFormed(j) && HasPath(j, path) && At(j, path) == Obj([]) && Blank(m.value)
    ensures Build(norm, j) == Build(norm, Edited(j, path, Obj([m]))) <==> !Exposed(j, path)
    decreases |path|
  {
    hide Build, Cleaned, CanonInner, Survives, SameFate;
    HollowIsEmpty(norm, m);
    if |path| > 0 {
      var c, c' := Child(j, path[0]), Edited(Child(j, path[0]), path[1..], Obj([m]));
      EmptyObjectEditIff(norm, c, path[1..], m);
      ChildFormIff(norm, j, path[0], c');
      if |path| == 1 {
        FateOfHollow(norm, m);
      } else {
        FateAbove(norm, c, path[1..], m);
      }
    }
  }

  /** An object with just a blank member is emptied, and dropped like an empty one. */
  lemma HollowIsEmpty(norm: Scalar -> Scalar, m: Member)
    requires Blank(m.value)
    ensures Cleaned(Obj([m])) == Cleaned(Obj([])) == Obj([])
    ensures Build(norm, Obj([m])) == Build(norm, Obj([]))
  {
    assert [m][1..] == [] && CleanedMembers([]) == [];
    assert CleanedMembers([m]) == [];
  }

  lemma FateOfHollow(norm: Scalar -> Scalar, m: Member)
    requires Blank(m.value)
    ensures SameFate(norm, Obj([]), Obj([m]))
  {
    HollowIsEmpty(norm, m);
  }

  lemma FateAbove(norm: Scalar -> Scalar, c: Json, path: seq<nat>, m: Member)
    requires path != [] && HasPath(c, path) && At(c, path) == Obj([])
    ensures var c' := Edited(c, path, Obj([m]));
            SameFate(norm, c, c') <==>
              Build(norm, c) == Build(norm, c') && !(|path| == 1 && NothingBeside(c, path[0]))
    ensures var c' := Edited(c, path, Obj([m]));
            CanonInner(norm, Cleaned(c)) == CanonInner(norm, Cleaned(c')) <==> Build(norm, c) == Build(norm, c')
  {
    hide Build, Cleaned, CanonInner, Survives;
    var c' := Edited(c, path, Obj([m]));
    var w := Edited(Child(c, path[0]), path[1..], Obj([m]));
    NotBlank(Child(c, path[0]), path[1..], m);
    WithChildSurvives(c, path[0], w);
    InnerIsBuild(norm, c);
    InnerIsBuild(norm, c');
  }

  lemma NotBlank(j: Json, path: seq<nat>, m: Member)
    requires HasPath(j, path) && At(j, path) == Obj([])
    ensures !Blank(Edited(j, path, Obj([m]))) && (Blank(j) <==> path == [])
  {
  }

  lemma PathNotBlank(j: Json, path: seq<nat>, w: Json)
    requires HasPath(j, path) && !Blank(At(j, path)) && !Blank(w)
    ensures !Blank(j) && !Blank(Edited(j, path, w))
  {
  }

  /** Changing one scalar at any depth of a request into another, neither of them blank, leaves
      the form alone exactly when the two normalise to the same value. */
  lemma {:induction false} ScalarEditIff(norm: Scalar -> Scalar, j: Json, path: seq<nat>, t: Scalar)
    requires WellFormed(j) && path != [] && HasPath(j, path) && At(j, path).Leaf?
    requires !Blank(At(j, path)) && !Blank(Leaf(t))
    ensures Build(norm, j) == Build(norm, Edited(j, path, Leaf(t))) <==>
              norm(norm(At(j, path).value)) == norm(norm(t))
    decreases |path|
  {
    hide Build, CanonInner, Survives, SameFate, Blank;
    var c, c' := Child(j, path[0]), Edited(Child(j, path[0]), path[1..], Leaf(t));
    ChildFormIff(norm, j, path[0], c');
    if |path| == 1 {
      ScalarFate(norm, c.value, t);
    } else {
      var v, w := Child(c, path[1]), Edited(Child(c, path[1]), path[1..][1..], Leaf(t));
      ScalarEditIff(norm, c, path[1..], t);
      PathNotBlank(v, path[1..][1..], Leaf(t));
      WithChildSurvives(c, path[1], w);
      ContainerFate(norm, c, c');
    }
  }

  lemma ScalarFate(norm: Scalar -> Scalar, s: Scalar, t: Scalar)
    requires !Blank(Leaf(s)) && !Blank(Leaf(t))
    ensures SameFate(norm, Leaf(s), Leaf(t)) <==> norm(norm(s)) == norm(norm(t))
    ensures CanonInner(norm, Cleaned(Leaf(s))) == CanonInner(norm, Cleaned(Leaf(t))) <==> norm(norm(s)) == norm(norm(t))
  {
  }

  lemma ContainerFate(norm: Scalar -> Scalar, c: Json, c': Json)
    requires !c.Leaf? && !c'.Leaf? && Survives(c) && Survives(c')
    ensures SameFate(norm, c, c') <==> Build(norm, c) == Build(norm, c')
    ensures CanonInner(norm, Cleaned(c)) == CanonInner(norm, Cleaned(c')) <==> Build(norm, c) == Build(norm, c')
  {
    InnerIsBuild(norm, c);
    InnerIsBuild(norm, c');
  }

  /** An empty object two levels down is not the same as one with a null member. */
  lemma NestedEmptyObjectMatters(norm: Scalar -> Scalar)
    ensures var hollow := Obj([Member("a", Leaf(Null))]);
            Build(norm, Obj([Member("y", Obj([Member("x", Obj([]))]))])) !=
            Build(norm, Obj([Member("y", Obj([Member("x", hollow)]))]))
  {
    hide Build;
    var m := Member("a", Leaf(Null));
    var v, w := Obj([Member("x", Obj([]))]), Obj([Member("x", Obj([m]))]);
    var j := Obj([Member("y", v)]);
    assert [0, 0][1..] == [0] && [0][1..] == [];
    assert At(v, [0]) == Obj([]) && Edited(v, [0], Obj([m])) == w;
    assert Edited(j, [0, 0], Obj([m])) == Obj([Member("y", w)]);
    EmptyObjectEditIff(norm, j, [0, 0], m);
  }

  // ---------------------------------------------------------------------------
  // The builder
  // ---------------------------------------------------------------------------

  /** json.dumps without spaces, members in the order in which they stand. */
  function Dumps(print_: Scalar -> string, j: Json): string
    decreases j, 1
  {
    match j
    case Leaf(s) => print_(s)
    case Arr(xs) => "[" + DumpItems(print_, xs) + "]"
    case Obj(ms) => "{" + DumpMembers(print_, ms) + "}"
  }

  function DumpItems(print_: Scalar -> string, xs: seq<Json>): string
    decreases xs, 0
  {
    if xs == [] then "" else Dumps(print_, xs[0]) + (if |xs| > 1 then "," else "") + DumpItems(print_, xs[1..])
  }

  function DumpMembers(print_: Scalar -> string, ms: seq<Member>): string
    decreases ms, 0
  {
    if ms == [] then ""
    else
      print_(Text(ms[0].key)) + ":" + Dumps(print_, ms[0].value) + (if |ms| > 1 then "," else "") +
      DumpMembers(print_, ms[1..])
  }

  /** What sort_keys makes json.dumps print: members in key order at every depth. */
  function KeySorted(j: Json): Json
    decreases j, 1
  {
    match j
    case Leaf(_) => j
    case Arr(xs) => Arr(KeySortedItems(xs))
    case Obj(ms) => Obj(SortMembers(KeySortedMembers(ms)))
  }

  function KeySortedItems(xs: seq<Json>): seq<Json>
    decreases xs, 0
  {
    if xs == [] then [] else [KeySorted(xs[0])] + KeySortedItems(xs[1..])
  }

  function KeySortedMembers(ms: seq<Member>): seq<Member>
    decreases ms, 0
  {
    if ms == [] then [] else [Member(ms[0].key, KeySorted(ms[0].value))] + KeySortedMembers(ms[1..])
  }

  /** The members of every object, at every depth, are in key order. */
  predicate Ordered(j: Json) {
    match j
    case Leaf(_) => true
    case Arr(xs) => forall i :: 0 <= i < |xs| ==> Ordered(xs[i])
    case Obj(ms) => Ascending(ms) && forall i :: 0 <= i < |ms| ==> Ordered(ms[i].value)
  }

  /** Both passes leave members in key order at every depth, whatever the order they came in. */
  lemma {:induction false} BuildIsOrdered(norm: Scalar -> Scalar, j: Json)
    requires WellFormed(j)
    ensures Ordered(Build(norm, j))
    decreases j, 0
  {
    match j
    case Leaf(_) =>
    case Arr(xs) =>
      var out := CanonItems(norm, CleanedItems(xs));
      forall i | 0 <= i < |out| ensures Ordered(out[i]) {
        BuiltItem(norm, xs, i);
        InnerIsOrdered(norm, xs[i]);
      }
    case Obj(ms) =>
      var built := CanonMembers(norm, CleanedMembers(ms));
      CleanedUnique(ms);
      CanonUnique(norm, CleanedMembers(ms));
      SortSorted(built);
      forall m | m in SortMembers(built) ensures Ordered(m.value) {
        BuiltMember(norm, ms, m);
        var i :| 0 <= i < |ms| && Survives(ms[i].value)
            && m == Member(ms[i].key, CanonInner(norm, Cleaned(ms[i].value)));
        InnerIsOrdered(norm, ms[i].value);
      }
  }

  lemma {:induction false} InnerIsOrdered(norm: Scalar -> Scalar, j: Json)
    requires WellFormed(j)
    ensures Ordered(CanonInner(norm, Cleaned(j)))
    decreases j, 1
  {
    if !j.Leaf? { BuildIsOrdered(norm, j); }
  }

  /** What is in key order everywhere is not changed by sorting keys. */
  lemma {:induction false} SortingKeysIsIdle(j: Json)
    requires Ordered(j)
    ensures KeySorted(j) == j
    decreases j, 1
  {
    match j
    case Leaf(_) =>
    case Arr(xs) => SortingItemsIsIdle(xs);
    case Obj(ms) =>
      SortingMembersIsIdle(ms);
      forall i, k | 0 <= i < k < |ms| ensures ms[i].key != ms[k].key { TextLessIrreflexive(ms[i].key); }
      SortSorted(ms);
      AscendingUnique(SortMembers(ms), ms);
  }

  lemma {:induction false} SortingItemsIsIdle(xs: seq<Json>)
    requires forall i :: 0 <= i < |xs| ==> Ordered(xs[i])
    ensures KeySortedItems(xs) == xs
    decreases xs, 0
  {
    if xs != [] {
      SortingKeysIsIdle(xs[0]);
      SortingItemsIsIdle(xs[1..]);
    }
  }

  lemma {:induction false} SortingMembersIsIdle(ms: seq<Member>)
    requires forall i :: 0 <= i < |ms| ==> Ordered(ms[i].value)
    ensures KeySortedMembers(ms) == ms
    decreases ms, 0
  {
    if ms != [] {
      SortingKeysIsIdle(ms[0].value);
      SortingMembersIsIdle(ms[1..]);
    }
  }

  /** The sort_keys option of the hashed text has nothing left to do. */
  lemma BuiltTextIsSorted(norm: Scalar -> Scalar, print_: Scalar -> string, params: Json)
    requires WellFormed(params)
    ensures Dumps(print_, KeySorted(Build(norm, params))) == Dumps(print_, Build(norm, params))
  {
    BuildIsOrdered(norm, params);
    SortingKeysIsIdle(Build(norm, params));
  }

  // ---------------------------------------------------------------------------
  // The hashed text
  // ---------------------------------------------------------------------------

  /** What may follow a value in a printed request. */
  predicate Stop(x: string) {
    x == "" || x[0] in {',', ':', ']', '}'}
  }

  /** Printed scalars as JSON has them: quoted or not, a scalar can be told from what follows it,
      and does not begin like a list or an object or like what follows a value. */
  ghost predicate Delimited(print_: Scalar -> string) {
    && (forall s :: print_(s) != "" && print_(s)[0] !in {'[', '{', ',', ':', ']', '}'})
    && (forall s, t, x, y :: Stop(x) && Stop(y) && print_(s) + x == print_(t) + y ==> s == t && x == y)
  }

  /** For one, text in quotes with the quote and the backslash escaped. */
  function JsonPrint(s: Scalar): string {
    match s
    case Null => "null"
    case Text(t) => "\"" + Escaped(t) + "\""
    case Other(id) => if id < 0 then "-" + Ones(-id) else Ones(id + 1)
  }

  function Escaped(t: string): string {
    if t == "" then ""
    else (if t[0] in {'"', '\\'} then ['\\', t[0]] else [t[0]]) + Escaped(t[1..])
  }

  function Ones(n: nat): string {
    if n == 0 then "" else "1" + Ones(n - 1)
  }

  lemma {:induction false} EscapedIsReadable(t: string, u: string, x: string, y: string)
    requires Escaped(t) + ("\"" + x) == Escaped(u) + ("\"" + y)
    ensures t == u && x == y
    decreases |t|
  {
    EscapedStarts(t, x);
    EscapedStarts(u, y);
    if t == "" && u == "" {
      assert Escaped(t) + ("\"" + x) == "\"" + x && Escaped(u) + ("\"" + y) == "\"" + y;
      TailsAgree("\"", x, y);
    } else if t != "" && u != "" {
      var a, b := Escaped(t[1..]) + ("\"" + x), Escaped(u[1..]) + ("\"" + y);
      var c := if t[0] in {'"', '\\'} then ['\\', t[0]] else [t[0]];
      assert c + a == Escaped(t) + ("\"" + x);
      assert c + b == Escaped(u) + ("\"" + y);
      TailsAgree(c, a, b);
      EscapedIsReadable(t[1..], u[1..], x, y);
      assert t == [t[0]] + t[1..] && u == [u[0]] + u[1..];
    }
  }

  /** How an escaped text followed by a quote begins. */
  lemma EscapedStarts(t: string, x: string)
    ensures var s := Escaped(t) + ("\"" + x);
            if t == "" then |s| >= 1 && s[0] == '"'
            else if t[0] in {'"', '\\'} then |s| >= 2 && s[0] == '\\' && s[1] == t[0]
            else |s| >= 1 && s[0] == t[0]
  {
  }

  lemma {:induction false} OnesAreReadable(m: nat, n: nat, x: string, y: string)
    requires Stop(x) && Stop(y) && Ones(m) + x == Ones(n) + y
    ensures m == n && x == y
  {
    assert m > 0 ==> (Ones(m) + x)[0] == '1';
    assert n > 0 ==> (Ones(n) + y)[0] == '1';
    assert m == 0 ==> Ones(m) + x == x;
    assert n == 0 ==> Ones(n) + y == y;
    if m > 0 && n > 0 {
      assert Ones(m) + x == "1" + (Ones(m - 1) + x) && Ones(n) + y == "1" + (Ones(n - 1) + y);
      TailsAgree("1", Ones(m - 1) + x, Ones(n - 1) + y);
      OnesAreReadable(m - 1, n - 1, x, y);
    }
  }

  lemma JsonPrintStarts(s: Scalar, x: string)
    ensures var c := (JsonPrint(s) + x)[0];
            && |JsonPrint(s)| > 0 && c == JsonPrint(s)[0]
            && c == match s case Null => 'n' case Text(_) => '"' case Other(id) => if id < 0 then '-' else '1'
  {
  }

  lemma JsonPrintIsReadable(s: Scalar, t: Scalar, x: string, y: string)
    requires Stop(x) && Stop(y) && JsonPrint(s) + x == JsonPrint(t) + y
    ensures s == t && x == y
  {
    JsonPrintStarts(s, x);
    JsonPrintStarts(t, y);
    match s
    case Null => TailsAgree("null", x, y);
    case Text(a) =>
      var b := t.text;
      var u, v := Escaped(a) + ("\"" + x), Escaped(b) + ("\"" + y);
      assert JsonPrint(s) + x == "\"" + u && JsonPrint(t) + y == "\"" + v;
      TailsAgree("\"", u, v);
      EscapedIsReadable(a, b, x, y);
    case Other(i) =>
      var j := t.id;
      if i < 0 {
        assert JsonPrint(s) + x == "-" + (Ones(-i) + x) && JsonPrint(t) + y == "-" + (Ones(-j) + y);
        TailsAgree("-", Ones(-i) + x, Ones(-j) + y);
        OnesAreReadable(-i, -j, x, y);
      } else {
        OnesAreReadable(i + 1, j + 1, x, y);
      }
  }

  lemma JsonPrintIsDelimited()
    ensures Delimited(JsonPrint)
  {
    forall s ensures JsonPrint(s) != "" && JsonPrint(s)[0] !in {'[', '{', ',', ':', ']', '}'} {
      JsonPrintStarts(s, "");
    }
    forall s, t, x, y | Stop(x) && Stop(y) && JsonPrint(s) + x == JsonPrint(t) + y ensures s == t && x == y {
      JsonPrintIsReadable(s, t, x, y);
    }
  }

  lemma Starts(print_: Scalar -> string, j: Json)
    requires Delimited(print_)
    ensures Dumps(print_, j) != "" && !Stop(Dumps(print_, j))
    ensures j.Arr? <==> Dumps(print_, j)[0] == '['
    ensures j.Obj? <==> Dumps(print_, j)[0] == '{'
  {
  }

  /** Equal texts begin with equal values, and go on equally. */
  lemma {:induction false} ValueIsReadable(print_: Scalar -> string, a: Json, b: Json, x: string, y: string)
    requires Delimited(print_) && Stop(x) && Stop(y) && Dumps(print_, a) + x == Dumps(print_, b) + y
    ensures a == b && x == y
    decreases a, 1
  {
    hide Delimited;
    Starts(print_, a);
    Starts(print_, b);
    assert (Dumps(print_, a) + x)[0] == Dumps(print_, a)[0] && (Dumps(print_, b) + y)[0] == Dumps(print_, b)[0];
    match a
    case Leaf(s) => ScalarIsReadable(print_, s, b.value, x, y);
    case Arr(xs) =>
      var u, v := DumpItems(print_, xs) + ("]" + x), DumpItems(print_, b.items) + ("]" + y);
      assert Dumps(print_, a) + x == "[" + u && Dumps(print_, b) + y == "[" + v;
      TailsAgree("[", u, v);
      ItemsAreReadable(print_, xs, b.items, "]" + x, "]" + y);
      TailsAgree("]", x, y);
    case Obj(ms) =>
      var u, v := DumpMembers(print_, ms) + ("}" + x), DumpMembers(print_, b.members) + ("}" + y);
      assert Dumps(print_, a) + x == "{" + u && Dumps(print_, b) + y == "{" + v;
      TailsAgree("{", u, v);
      MembersAreReadable(print_, ms, b.members, "}" + x, "}" + y);
      TailsAgree("}", x, y);
  }

  lemma ScalarIsReadable(print_: Scalar -> string, s: Scalar, t: Scalar, x: string, y: string)
    requires Delimited(print_) && Stop(x) && Stop(y) && print_(s) + x == print_(t) + y
    ensures s == t && x == y
  {
  }

  lemma TailsAgree(c: string, u: string, v: string)
    requires c + u == c + v
    ensures u == v
  {
    assert u == (c + u)[|c|..] && v == (c + v)[|c|..];
  }

  lemma {:induction false} ItemsAreReadable(print_: Scalar -> string, xs: seq<Json>,
                                            ys: seq<Json>, x: string, y: string)
    requires Delimited(print_) && x != "" && y != "" && x[0] == y[0] == ']'
    requires DumpItems(print_, xs) + x == DumpItems(print_, ys) + y
    ensures xs == ys && x == y
    decreases xs, 0
  {
    hide Delimited, Dumps, DumpItems;
    if xs != [] { Starts(print_, xs[0]); }
    if ys != [] { Starts(print_, ys[0]); }
    ItemsSplit(print_, xs, x);
    ItemsSplit(print_, ys, y);
    if xs != [] && ys != [] {
      var u, v := ItemsTail(print_, xs, x), ItemsTail(print_, ys, y);
      ValueIsReadable(print_, xs[0], ys[0], u, v);
      TailsAgree(if |xs| > 1 then "," else "", DumpItems(print_, xs[1..]) + x, DumpItems(print_, ys[1..]) + y);
      ItemsAreReadable(print_, xs[1..], ys[1..], x, y);
      assert xs == [xs[0]] + xs[1..] && ys == [ys[0]] + ys[1..];
    }
  }

  /** What follows the first item. */
  function ItemsTail(print_: Scalar -> string, xs: seq<Json>, x: string): string
    requires xs != []
  {
    (if |xs| > 1 then "," else "") + (DumpItems(print_, xs[1..]) + x)
  }

  lemma ItemsSplit(print_: Scalar -> string, xs: seq<Json>, x: string)
    requires x != "" && x[0] == ']'
    ensures xs == [] ==> DumpItems(print_, xs) + x == x
    ensures xs != [] ==> DumpItems(print_, xs) + x == Dumps(print_, xs[0]) + ItemsTail(print_, xs, x)
    ensures xs != [] ==> Stop(ItemsTail(print_, xs, x)) && ItemsTail(print_, xs, x) != ""
    ensures xs != [] ==> (ItemsTail(print_, xs, x)[0] == ',' <==> |xs| > 1)
  {
    hide Dumps;
    if xs != [] {
      Regroup("", Dumps(print_, xs[0]), if |xs| > 1 then "," else "", DumpItems(print_, xs[1..]), x);
      if |xs| == 1 { assert DumpItems(print_, xs[1..]) + x == x; }
    }
  }

  lemma {:induction false} MembersAreReadable(print_: Scalar -> string, ms: seq<Member>,
                                              ns: seq<Member>, x: string, y: string)
    requires Delimited(print_) && x != "" && y != "" && x[0] == y[0] == '}'
    requires DumpMembers(print_, ms) + x == DumpMembers(print_, ns) + y
    ensures ms == ns && x == y
    decreases ms, 0
  {
    hide Delimited, Dumps, DumpMembers;
    MembersSplit(print_, ms, x);
    MembersSplit(print_, ns, y);
    if ms != [] && ns != [] {
      var u, v := MembersTail(print_, ms, x), MembersTail(print_, ns, y);
      var p, q := Dumps(print_, ms[0].value) + u, Dumps(print_, ns[0].value) + v;
      ScalarIsReadable(print_, Text(ms[0].key), Text(ns[0].key), ":" + p, ":" + q);
      TailsAgree(":", p, q);
      ValueIsReadable(print_, ms[0].value, ns[0].value, u, v);
      TailsAgree(if |ms| > 1 then "," else "", DumpMembers(print_, ms[1..]) + x, DumpMembers(print_, ns[1..]) + y);
      MembersAreReadable(print_, ms[1..], ns[1..], x, y);
      assert ms == [ms[0]] + ms[1..] && ns == [ns[0]] + ns[1..];
    }
  }

  function MembersTail(print_: Scalar -> string, ms: seq<Member>, x: string): string
    requires ms != []
  {
    (if |ms| > 1 then "," else "") + (DumpMembers(print_, ms[1..]) + x)
  }

  lemma MembersSplit(print_: Scalar -> string, ms: seq<Member>, x: string)
    requires Delimited(print_) && x != "" && x[0] == '}'
    ensures ms == [] ==> DumpMembers(print_, ms) + x == x
    ensures ms != [] ==>
              DumpMembers(print_, ms) + x ==
              print_(Text(ms[0].key)) + (":" + (Dumps(print_, ms[0].value) + MembersTail(print_, ms, x)))
    ensures ms != [] ==> (DumpMembers(print_, ms) + x)[0] != '}'
    ensures ms != [] ==> Stop(MembersTail(print_, ms, x)) && MembersTail(print_, ms, x) != ""
    ensures ms != [] ==> (MembersTail(print_, ms, x)[0] == ',' <==> |ms| > 1)
  {
    hide Dumps, Delimited;
    if ms != [] {
      MembersText(print_, ms, x);
      ScalarStarts(print_, Text(ms[0].key));
      if |ms| == 1 { assert DumpMembers(print_, ms[1..]) + x == x; }
    }
  }

  lemma ScalarStarts(print_: Scalar -> string, s: Scalar)
    requires Delimited(print_)
    ensures print_(s) != "" && print_(s)[0] != '}'
  {
  }

  lemma MembersText(print_: Scalar -> string, ms: seq<Member>, x: string)
    requires ms != []
    ensures DumpMembers(print_, ms) + x ==
            print_(Text(ms[0].key)) + (":" + (Dumps(print_, ms[0].value) + MembersTail(print_, ms, x)))
  {
    hide Dumps;
    var k, v, rest := print_(Text(ms[0].key)), Dumps(print_, ms[0].value), DumpMembers(print_, ms[1..]);
    var sep := if |ms| > 1 then "," else "";
    assert DumpMembers(print_, ms) == k + ":" + v + sep + rest;
    hide DumpMembers;
    RegroupMember(k, v, sep, rest, x);
  }

  lemma RegroupMember(k: string, v: string, sep: string, rest: string, x: string)
    ensures k + ":" + v + sep + rest + x == k + (":" + (v + (sep + (rest + x))))
  {
    var tail := sep + (rest + x);
    assert sep + rest + x == tail;
    assert v + sep + rest + x == v + tail;
    assert (k + ":") + v + sep + rest + x == (k + ":") + (v + tail);
  }

  lemma Regroup(a: string, b: string, sep: string, rest: string, x: string)
    ensures a + b + sep + rest + x == a + (b + (sep + (rest + x)))
    ensures "" + (rest + x) == rest + x && b + sep + rest + x == b + (sep + (rest + x))
  {
  }

  /** The hashed text of two requests is the same exactly when the requests say the same. */
  lemma SameTextIff(norm: Scalar -> Scalar, print_: Scalar -> string, a: Json, b: Json)
    requires WellFormed(a) && WellFormed(b) && Delimited(print_)
    ensures Dumps(print_, KeySorted(Build(norm, a))) == Dumps(print_, KeySorted(Build(norm, b))) <==>
              Agree(norm, a, b, false)
  {
    hide Delimited, Dumps, Build, Agree, KeySorted;
    BuiltTextIsSorted(norm, print_, a);
    BuiltTextIsSorted(norm, print_, b);
    SameFormIffAgree(norm, a, b, false);
    var s, t := Dumps(print_, Build(norm, a)), Dumps(print_, Build(norm, b));
    if s == t {
      assert s + "" == t + "";
      ValueIsReadable(print_, Build(norm, a), Build(norm, b), "", "");
    }
  }

  ghost predicate Injective(f: string -> string) {
    forall x, y :: f(x) == f(y) ==> x == y
  }

  /** `digest` stands for SHA-256. */
  class CanonicalRequestBuilder {
    const salt: string
    const norm: Scalar -> Scalar
    const print_: Scalar -> string
    const digest: string -> string
    var canonical: Option<Json>

    constructor (salt: string, norm: Scalar -> Scalar, print_: Scalar -> string, digest: string -> string)
      ensures canonical == None
      ensures this.salt == salt && this.norm == norm && this.print_ == print_ && this.digest == digest
    {
      this.salt, this.norm, this.print_, this.digest := salt, norm, print_, digest;
      canonical := None;
    }

    function HashOf(params: Json): string {
      digest(salt + Dumps(print_, KeySorted(Build(norm, params))))
    }

    method BuildRequest(params: Json) returns (j: Json)
      modifies this
      ensures canonical == Some(j) && j == Build(norm, params)
    {
      var cleaned := Cleaned(params);
      j := Canon(norm, cleaned);
      canonical := Some(j);
    }

    /** None when build() has not been called. */
    method Hash() returns (h: Option<string>)
      ensures h.None? <==> canonical.None?
      ensures forall params :: canonical == Some(Build(norm, params)) ==> h == Some(HashOf(params))
    {
      if canonical.None? { return None; }
      var payload := Dumps(print_, KeySorted(canonical.value));
      h := Some(digest(salt + payload));
    }

    /** A request verifies against the hash of any request that means the same. */
    method Verify(params: Json, expected: string) returns (ok: bool)
      modifies this
      ensures ok <==> HashOf(params) == expected
      ensures forall other :: SameRequest(other, params) && expected == HashOf(other) ==> ok
      ensures Delimited(print_) && Injective(digest) && WellFormed(params) ==>
                forall other :: WellFormed(other) && expected == HashOf(other) ==>
                    (ok <==> Agree(norm, other, params, false))
    {
      hide Delimited, Dumps, Build, Agree, KeySorted, SameRequest, Injective;
      var j := BuildRequest(params);
      var h := Hash();
      ok := h == Some(expected);
      forall other | SameRequest(other, params) ensures HashOf(other) == HashOf(params) {
        CanonicalFormIsStable(norm, other, params);
      }
      if Delimited(print_) && Injective(digest) && WellFormed(params) {
        forall other | WellFormed(other)
          ensures HashOf(other) == HashOf(params) <==> Agree(norm, other, params, false)
        {
          SameTextIff(norm, print_, other, params);
          SameDigestIff(digest, salt, Dumps(print_, KeySorted(Build(norm, other))),
                        Dumps(print_, KeySorted(Build(norm, params))));
        }
      }
    }
  }

  lemma SameDigestIff(digest: string -> string, salt: string, x: string, y: string)
    requires Injective(digest)
    ensures digest(salt + x) == digest(salt + y) <==> x == y
  {
    if digest(salt + x) == digest(salt + y) { TailsAgree(salt, x, y); }
  }
}
