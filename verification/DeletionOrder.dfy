/**
 * The tenant deletion order: the static checker, the deletions it is meant to keep from being blocked, and the exact
 * relation between the two.
 */
module DeletionOrder {

  datatype Rule = NoAction | Restrict | Cascade | SetNull | SetDefault

  datatype ForeignKey = ForeignKey(child: string, parent: string, name: string, rule: Rule)

  datatype Violation = Violation(fk: ForeignKey, childIdx: nat, parentIdx: nat)

  datatype ValidationResult = ValidationResult(
    success: bool,
    missingTables: seq<string>,
    duplicatesInOrder: seq<string>,
    tablesInDatabase: seq<string>,
    tablesInDeletionOrder: seq<string>,
    fkOrderingViolations: seq<Violation>)

  const EXCLUDED_TABLES: seq<string> :=
    ["tenants", "knex_migrations", "knex_migrations_lock", "pending_tenant_deletions", "spatial_ref_sys"]

  const EXEMPT_FK_CONSTRAINTS: set<string> := {
    "statuses_tenant_board_id_fk",
    "authorization_bundles_tenant_published_revision_id_foreign",
    "inbound_ticket_defaults_tenant_client_id_foreign",
    "assets_tenant_stock_unit_id_foreign",
    "fk_opportunities_suggestion"
  }

  predicate Restrictive(fk: ForeignKey) {
    fk.rule == NoAction || fk.rule == Restrict
  }

  // ---------------------------------------------------------------------------
  // The checker
  // ---------------------------------------------------------------------------

  /** Index of the first occurrence, or the length of the list when there is none. */
  function FirstIndex(order: seq<string>, t: string): (i: nat)
    ensures i <= |order|
    ensures forall k :: 0 <= k < i ==> order[k] != t
    ensures i < |order| ==> order[i] == t
  {
    if order == [] || order[0] == t then 0 else 1 + FirstIndex(order[1..], t)
  }

  /** The entries that occur earlier in the list as well. */
  function Repeats(order: seq<string>, n: nat): seq<string>
    requires n <= |order|
  {
    if n == 0 then []
    else Repeats(order, n - 1) + if order[n - 1] in order[..n - 1] then [order[n - 1]] else []
  }

  function Without(tables: seq<string>, excluded: seq<string>): seq<string> {
    if tables == [] then []
    else (if tables[0] in excluded then [] else [tables[0]]) + Without(tables[1..], excluded)
  }

  /** A key the checker looks at: restrictive, between two different tables, not exempt, both tables listed. */
  predicate Checked(fk: ForeignKey, order: seq<string>, exempt: set<string>) {
    && fk.child != fk.parent && fk.name !in exempt && fk.child in order && fk.parent in order && Restrictive(fk)
  }

  predicate Violates(fk: ForeignKey, order: seq<string>, exempt: set<string>) {
    Checked(fk, order, exempt) && FirstIndex(order, fk.child) >= FirstIndex(order, fk.parent)
  }

  function ViolationsOf(fk: ForeignKey, order: seq<string>, exempt: set<string>): seq<Violation> {
    if Violates(fk, order, exempt) then [Violation(fk, FirstIndex(order, fk.child), FirstIndex(order, fk.parent))]
    else []
  }

  function Violations(fks: seq<ForeignKey>, order: seq<string>, exempt: set<string>): seq<Violation> {
    if fks == [] then [] else ViolationsOf(fks[0], order, exempt) + Violations(fks[1..], order, exempt)
  }

  method FindDuplicates(order: seq<string>) returns (duplicates: seq<string>)
    ensures duplicates == Repeats(order, |order|)
  {
    var seen := {};
    duplicates := [];
    for k := 0 to |order|
      invariant seen == set t | t in order[..k]
      invariant duplicates == Repeats(order, k)
    {
      if order[k] in seen {
        duplicates := duplicates + [order[k]];
      }
      seen := seen + {order[k]};
      assert order[..k + 1] == order[..k] + [order[k]];
    }
  }

  method FilterOut(tables: seq<string>, excluded: seq<string>) returns (kept: seq<string>)
    ensures kept == Without(tables, excluded)
  {
    kept := [];
    for k := 0 to |tables|
      invariant kept + Without(tables[k..], excluded) == Without(tables, excluded)
    {
      assert tables[k..][1..] == tables[k + 1..];
      if tables[k] !in excluded {
        kept := kept + [tables[k]];
      }
    }
  }

  /** The index map: the first occurrence wins. */
  method IndexTables(order: seq<string>) returns (orderIdx: map<string, nat>)
    ensures orderIdx.Keys == set t | t in order
    ensures forall t :: t in orderIdx ==> orderIdx[t] == FirstIndex(order, t)
  {
    orderIdx := map[];
    for k := 0 to |order|
      invariant orderIdx.Keys == set t | t in order[..k]
      invariant forall t :: t in orderIdx ==> orderIdx[t] == FirstIndex(order, t)
    {
      if order[k] !in orderIdx {
        FirstIndexIs(order, order[k], k);
        orderIdx := orderIdx[order[k] := k];
      }
      assert order[..k + 1] == order[..k] + [order[k]];
    }
    assert order[..|order|] == order;
  }

  lemma FirstIndexIs(order: seq<string>, t: string, k: nat)
    requires k < |order| && order[k] == t && t !in order[..k]
    ensures FirstIndex(order, t) == k
  {
    assert forall n :: 0 <= n < k ==> order[..k][n] == order[n];
  }

  /** The checks on one key, in the order of the source's early exits. */
  method CheckKey(fk: ForeignKey, orderIdx: map<string, nat>, exempt: set<string>, ghost order: seq<string>)
    returns (found: seq<Violation>)
    requires orderIdx.Keys == set t | t in order
    requires forall t :: t in orderIdx ==> orderIdx[t] == FirstIndex(order, t)
    ensures found == ViolationsOf(fk, order, exempt)
  {
    hide FirstIndex;
    found := [];
    if fk.child == fk.parent {
      return;
    }
    if fk.name in exempt {
      return;
    }
    if fk.child !in orderIdx || fk.parent !in orderIdx {
      return;
    }
    if fk.rule != NoAction && fk.rule != Restrict {
      return;
    }
    var childIdx, parentIdx := orderIdx[fk.child], orderIdx[fk.parent];
    if childIdx >= parentIdx {
      found := [Violation(fk, childIdx, parentIdx)];
    }
  }

  method FindViolations(fks: seq<ForeignKey>, order: seq<string>, exempt: set<string>)
    returns (violations: seq<Violation>)
    ensures violations == Violations(fks, order, exempt)
  {
    var orderIdx := IndexTables(order);
    violations := [];
    for k := 0 to |fks|
      invariant violations + Violations(fks[k..], order, exempt) == Violations(fks, order, exempt)
    {
      hide ViolationsOf, FirstIndex;
      var found := CheckKey(fks[k], orderIdx, exempt, order);
      assert fks[k..][1..] == fks[k + 1..];
      assert Violations(fks[k..], order, exempt) == found + Violations(fks[k + 1..], order, exempt);
      assert violations + (found + Violations(fks[k + 1..], order, exempt))
          == violations + found + Violations(fks[k + 1..], order, exempt);
      violations := violations + found;
    }
  }

  method ValidateDeletionOrder(order: seq<string>, dbTables: seq<string>, fks: seq<ForeignKey>)
    returns (r: ValidationResult)
    ensures r.duplicatesInOrder == Repeats(order, |order|)
    ensures r.tablesInDatabase == Without(dbTables, EXCLUDED_TABLES)
    ensures r.missingTables == Without(Without(dbTables, EXCLUDED_TABLES), order)
    ensures r.tablesInDeletionOrder == order
    ensures r.fkOrderingViolations == Violations(fks, order, EXEMPT_FK_CONSTRAINTS)
    ensures r.success <==> r.missingTables == [] && r.duplicatesInOrder == [] && r.fkOrderingViolations == []
    ensures Chosen(r.duplicatesInOrder, order, RepeatedAt(order, |order|))
    ensures Chosen(r.tablesInDatabase, dbTables, KeptAt(dbTables, EXCLUDED_TABLES, |dbTables|))
    ensures Chosen(r.missingTables, r.tablesInDatabase, KeptAt(r.tablesInDatabase, order, |r.tablesInDatabase|))
    ensures Chosen(KeysOf(r.fkOrderingViolations), fks, MisplacedAt(fks, order, EXEMPT_FK_CONSTRAINTS, |fks|))
    ensures forall v :: v in r.fkOrderingViolations ==> Reports(v, order)
  {
    hide Chosen, Repeats, Without, Violations, RepeatedAt, KeptAt, MisplacedAt, Reports, KeysOf;
    var duplicates := FindDuplicates(order);
    var relevant := FilterOut(dbTables, EXCLUDED_TABLES);
    var missing := FilterOut(relevant, order);
    var violations := FindViolations(fks, order, EXEMPT_FK_CONSTRAINTS);
    r := ValidationResult(
      missing == [] && duplicates == [] && violations == [], missing, duplicates, relevant, order, violations);
    RepeatsChooses(order, |order|);
    FilterChooses(dbTables, EXCLUDED_TABLES);
    FilterChooses(relevant, order);
    ReportExact(fks, order, EXEMPT_FK_CONSTRAINTS);
  }

  lemma {:induction false} WithoutExact(tables: seq<string>, excluded: seq<string>, t: string)
    ensures t in Without(tables, excluded) <==> t in tables && t !in excluded
  {
    if tables != [] {
      WithoutExact(tables[1..], excluded, t);
    }
  }

  lemma EarlierEntry(order: seq<string>, k: nat)
    requires k < |order|
    ensures order[k] in order[..k] <==> exists i :: 0 <= i < k && order[i] == order[k]
  {
    if i :| 0 <= i < k && order[i] == order[k] {
      assert order[..k][i] == order[k];
    }
  }

  lemma {:induction false} RepeatsExact(order: seq<string>, n: nat)
    requires n <= |order|
    ensures Repeats(order, n) == [] <==> forall i, j :: 0 <= i < j < n ==> order[i] != order[j]
  {
    if n > 0 {
      hide Repeats;
      RepeatsExact(order, n - 1);
      EarlierEntry(order, n - 1);
      LastRepeat(order, n);
    }
  }

  lemma LastRepeat(order: seq<string>, n: nat)
    requires 0 < n <= |order|
    ensures Repeats(order, n) == [] <==> Repeats(order, n - 1) == [] && order[n - 1] !in order[..n - 1]
  {
  }

  lemma {:induction false} ViolationsExact(fks: seq<ForeignKey>, order: seq<string>, exempt: set<string>)
    ensures Violations(fks, order, exempt) == [] <==> forall fk :: fk in fks ==> !Violates(fk, order, exempt)
    ensures forall v :: v in Violations(fks, order, exempt) ==> v.fk in fks && Violates(v.fk, order, exempt)
  {
    if fks != [] {
      ViolationsExact(fks[1..], order, exempt);
      assert forall fk :: fk in fks <==> fk == fks[0] || fk in fks[1..];
    }
  }

  // ---------------------------------------------------------------------------
  // The result, entry by entry
  // ---------------------------------------------------------------------------

  ghost predicate Ascending(idx: seq<nat>) {
    forall j, k :: 0 <= j < k < |idx| ==> idx[j] < idx[k]
  }

  /** `chosen` holds the entries of `items` at the wanted positions, in order and each once. */
  ghost predicate Chosen<T>(chosen: seq<T>, items: seq<T>, wanted: set<nat>) {
    exists idx: seq<nat> :: ChosenAt(chosen, items, wanted, idx)
  }

  ghost predicate ChosenAt<T>(chosen: seq<T>, items: seq<T>, wanted: set<nat>, idx: seq<nat>) {
    && Ascending(idx) && (forall i: nat :: i in idx <==> i in wanted)
    && |idx| == |chosen| && forall k :: 0 <= k < |idx| ==> idx[k] < |items| && chosen[k] == items[idx[k]]
  }

  lemma NoneChosen<T>(items: seq<T>, wanted: set<nat>)
    requires wanted == {}
    ensures Chosen([], items, wanted)
  {
    assert ChosenAt([], items, wanted, []);
  }

  lemma OneMoreChosen<T>(chosen: seq<T>, items: seq<T>, wanted: set<nat>, n: nat, more: set<nat>)
    requires Chosen(chosen, items, wanted) && n < |items| && more == wanted + {n}
    requires forall i :: i in wanted ==> i < n
    ensures Chosen(chosen + [items[n]], items, more)
  {
    hide Ascending;
    var idx: seq<nat> :| ChosenAt(chosen, items, wanted, idx);
    OneMoreIndex(idx, wanted, n, more);
    OneMoreEntry(chosen, items, idx, n);
    assert ChosenAt(chosen + [items[n]], items, more, idx + [n]);
  }

  lemma OneMoreIndex(idx: seq<nat>, wanted: set<nat>, n: nat, more: set<nat>)
    requires Ascending(idx) && (forall i: nat :: i in idx <==> i in wanted)
    requires more == wanted + {n} && forall i :: i in wanted ==> i < n
    ensures Ascending(idx + [n]) && (forall i: nat :: i in idx + [n] <==> i in more)
  {
    assert forall k :: 0 <= k < |idx| ==> idx[k] in wanted;
  }

  lemma OneMoreEntry<T>(chosen: seq<T>, items: seq<T>, idx: seq<nat>, n: nat)
    requires n < |items| && |idx| == |chosen|
    requires forall k :: 0 <= k < |idx| ==> idx[k] < |items| && chosen[k] == items[idx[k]]
    ensures var longer, all := idx + [n], chosen + [items[n]];
            |longer| == |all| && forall k :: 0 <= k < |longer| ==> longer[k] < |items| && all[k] == items[longer[k]]
  {
  }

  /** `k` is where `t` is listed first. */
  predicate FirstAt(order: seq<string>, t: string, k: nat) {
    k < |order| && order[k] == t && forall j :: 0 <= j < k ==> order[j] != t
  }

  /** The key's parent is listed before its child, and only the order of deletion can make up for it. */
  ghost predicate Misplaced(fk: ForeignKey, order: seq<string>, exempt: set<string>) {
    && fk.name !in exempt && (fk.rule == NoAction || fk.rule == Restrict)
    && exists j: nat, k: nat :: j < k && FirstAt(order, fk.parent, j) && FirstAt(order, fk.child, k)
  }

  /** The two positions that a violation reports: the first ones of its key's tables, the parent's before the child's. */
  predicate Reports(v: Violation, order: seq<string>) {
    v.parentIdx < v.childIdx && FirstAt(order, v.fk.parent, v.parentIdx) && FirstAt(order, v.fk.child, v.childIdx)
  }

  function KeysOf(violations: seq<Violation>): seq<ForeignKey> {
    seq(|violations|, k requires 0 <= k < |violations| => violations[k].fk)
  }

  ghost function MisplacedAt(fks: seq<ForeignKey>, order: seq<string>, exempt: set<string>, n: nat): set<nat> {
    set i: nat | i < n && i < |fks| && Misplaced(fks[i], order, exempt)
  }

  /** The positions before `n` whose entry stands earlier in the list as well. */
  ghost function RepeatedAt(order: seq<string>, n: nat): set<nat> {
    set k: nat | k < n && k < |order| && exists i :: 0 <= i < k && order[i] == order[k]
  }

  ghost function KeptAt(tables: seq<string>, excluded: seq<string>, n: nat): set<nat> {
    set i: nat | i < n && i < |tables| && tables[i] !in excluded
  }

  lemma {:induction false} WithoutConcat(a: seq<string>, b: seq<string>, excluded: seq<string>)
    ensures Without(a + b, excluded) == Without(a, excluded) + Without(b, excluded)
  {
    if a == [] {
      assert a + b == b;
    } else {
      assert (a + b)[0] == a[0] && (a + b)[1..] == a[1..] + b;
      WithoutConcat(a[1..], b, excluded);
    }
  }

  lemma {:induction false} ViolationsConcat(
    a: seq<ForeignKey>, b: seq<ForeignKey>, order: seq<string>, exempt: set<string>)
    ensures Violations(a + b, order, exempt) == Violations(a, order, exempt) + Violations(b, order, exempt)
  {
    hide ViolationsOf;
    if a == [] {
      assert a + b == b;
    } else {
      assert (a + b)[0] == a[0] && (a + b)[1..] == a[1..] + b;
      ViolationsConcat(a[1..], b, order, exempt);
      var x, y, z := ViolationsOf(a[0], order, exempt), Violations(a[1..], order, exempt), Violations(b, order, exempt);
      assert x + (y + z) == x + y + z;
    }
  }

  lemma {:induction false} WithoutChooses(tables: seq<string>, excluded: seq<string>, n: nat)
    requires n <= |tables|
    ensures Chosen(Without(tables[..n], excluded), tables, KeptAt(tables, excluded, n))
  {
    hide Chosen;
    if n == 0 {
      NoneChosen(tables, KeptAt(tables, excluded, 0));
    } else {
      WithoutChooses(tables, excluded, n - 1);
      assert tables[..n] == tables[..n - 1] + [tables[n - 1]];
      WithoutConcat(tables[..n - 1], [tables[n - 1]], excluded);
      WithoutOne(tables[n - 1], excluded);
      var before, now := KeptAt(tables, excluded, n - 1), KeptAt(tables, excluded, n);
      if tables[n - 1] in excluded {
        assert now == before;
        assert Without(tables[..n - 1], excluded) + [] == Without(tables[..n - 1], excluded);
      } else {
        assert now == before + {n - 1};
        OneMoreChosen(Without(tables[..n - 1], excluded), tables, before, n - 1, now);
      }
    }
  }

  lemma FilterChooses(tables: seq<string>, excluded: seq<string>)
    ensures Chosen(Without(tables, excluded), tables, KeptAt(tables, excluded, |tables|))
  {
    hide *;
    assert tables[..|tables|] == tables;
    WithoutChooses(tables, excluded, |tables|);
  }

  lemma WithoutOne(t: string, excluded: seq<string>)
    ensures Without([t], excluded) == if t in excluded then [] else [t]
  {
    assert [t][1..] == [];
  }

  lemma {:induction false} RepeatsChooses(order: seq<string>, n: nat)
    requires n <= |order|
    ensures Chosen(Repeats(order, n), order, RepeatedAt(order, n))
  {
    hide Chosen;
    if n == 0 {
      NoneChosen(order, RepeatedAt(order, 0));
    } else {
      RepeatsChooses(order, n - 1);
      EarlierEntry(order, n - 1);
      var before, now := RepeatedAt(order, n - 1), RepeatedAt(order, n);
      if order[n - 1] in order[..n - 1] {
        assert now == before + {n - 1};
        OneMoreChosen(Repeats(order, n - 1), order, before, n - 1, now);
      } else {
        assert now == before;
        assert Repeats(order, n - 1) + [] == Repeats(order, n - 1);
      }
    }
  }

  lemma FirstAtExact(order: seq<string>, t: string, k: nat)
    ensures FirstAt(order, t, k) <==> t in order && k == FirstIndex(order, t)
  {
    FirstIndexListed(order, t);
  }

  /** The checker's comparison of first indices finds exactly the misplaced keys. */
  lemma ViolatesExact(fk: ForeignKey, order: seq<string>, exempt: set<string>)
    ensures Violates(fk, order, exempt) <==> Misplaced(fk, order, exempt)
    ensures Violates(fk, order, exempt) ==>
              && |ViolationsOf(fk, order, exempt)| == 1
              && ViolationsOf(fk, order, exempt)[0].fk == fk && Reports(ViolationsOf(fk, order, exempt)[0], order)
  {
    hide FirstIndex, FirstAt;
    forall t, k
      ensures FirstAt(order, t, k) <==> t in order && k == FirstIndex(order, t)
    {
      FirstAtExact(order, t, k);
    }
    if Violates(fk, order, exempt) {
      DifferentIndices(order, fk.child, fk.parent);
      assert FirstAt(order, fk.parent, FirstIndex(order, fk.parent));
      assert FirstAt(order, fk.child, FirstIndex(order, fk.child));
    }
  }

  lemma DifferentIndices(order: seq<string>, a: string, b: string)
    requires a in order && b in order && a != b
    ensures FirstIndex(order, a) != FirstIndex(order, b)
  {
    FirstIndexListed(order, a);
    FirstIndexListed(order, b);
  }

  lemma KeysOfConcat(a: seq<Violation>, b: seq<Violation>)
    ensures KeysOf(a + b) == KeysOf(a) + KeysOf(b)
  {
  }

  lemma {:induction false} ViolationsChoose(fks: seq<ForeignKey>, order: seq<string>, exempt: set<string>, n: nat)
    requires n <= |fks|
    ensures Chosen(KeysOf(Violations(fks[..n], order, exempt)), fks, MisplacedAt(fks, order, exempt, n))
    ensures forall v :: v in Violations(fks[..n], order, exempt) ==> Reports(v, order)
  {
    hide Chosen, Violations, ViolationsOf, Violates, Misplaced, Reports, KeysOf;
    if n == 0 {
      NoneReported(fks, order, exempt);
    } else {
      ViolationsChoose(fks, order, exempt, n - 1);
      var fk, early := fks[n - 1], Violations(fks[..n - 1], order, exempt);
      var found := ViolationsOf(fk, order, exempt);
      assert fks[..n] == fks[..n - 1] + [fk];
      ViolationsConcat(fks[..n - 1], [fk], order, exempt);
      ViolationsSingle(fk, order, exempt);
      ViolatesExact(fk, order, exempt);
      KeysOfConcat(early, found);
      OneKey(fk, order, exempt);
      var before, now := MisplacedAt(fks, order, exempt, n - 1), MisplacedAt(fks, order, exempt, n);
      if Violates(fk, order, exempt) {
        assert now == before + {n - 1};
        OneMoreChosen(KeysOf(early), fks, before, n - 1, now);
      } else {
        assert now == before;
        assert early + [] == early;
      }
    }
  }

  lemma NoneReported(fks: seq<ForeignKey>, order: seq<string>, exempt: set<string>)
    ensures Violations(fks[..0], order, exempt) == []
    ensures Chosen(KeysOf(Violations(fks[..0], order, exempt)), fks, MisplacedAt(fks, order, exempt, 0))
  {
    assert fks[..0] == [] && Violations([], order, exempt) == [] && KeysOf([]) == [];
    NoneChosen(fks, MisplacedAt(fks, order, exempt, 0));
  }

  lemma ViolationsSingle(fk: ForeignKey, order: seq<string>, exempt: set<string>)
    ensures Violations([fk], order, exempt) == ViolationsOf(fk, order, exempt)
  {
    hide ViolationsOf;
    assert [fk][1..] == [];
    assert ViolationsOf(fk, order, exempt) + [] == ViolationsOf(fk, order, exempt);
  }

  lemma OneKey(fk: ForeignKey, order: seq<string>, exempt: set<string>)
    ensures KeysOf(ViolationsOf(fk, order, exempt)) == if Violates(fk, order, exempt) then [fk] else []
    ensures !Violates(fk, order, exempt) ==> ViolationsOf(fk, order, exempt) == []
  {
    hide Violates;
  }

  /**
   * The report, exactly: its keys are the misplaced ones, in their order and as often as they occur, and each comes with
   * the first positions of its child and its parent.
   */
  lemma ReportExact(fks: seq<ForeignKey>, order: seq<string>, exempt: set<string>)
    ensures Chosen(KeysOf(Violations(fks, order, exempt)), fks, MisplacedAt(fks, order, exempt, |fks|))
    ensures forall v :: v in Violations(fks, order, exempt) ==> Reports(v, order)
  {
    hide *;
    assert fks[..|fks|] == fks;
    ViolationsChoose(fks, order, exempt, |fks|);
  }

  /** The keys that the script's own list leaves aside, by name. */
  lemma ExemptKeysExact(fk: ForeignKey, order: seq<string>)
    ensures Misplaced(fk, order, EXEMPT_FK_CONSTRAINTS) <==> Misplaced(fk, order, {}) && !Exempt(fk.name)
  {
    hide FirstAt;
  }

  predicate Exempt(name: string) {
    || name == "statuses_tenant_board_id_fk" || name == "authorization_bundles_tenant_published_revision_id_foreign"
    || name == "inbound_ticket_defaults_tenant_client_id_foreign" || name == "assets_tenant_stock_unit_id_foreign"
    || name == "fk_opportunities_suggestion"
  }

  /** The tables that the script's own list leaves aside, by name. */
  lemma ExcludedTablesExact(t: string)
    ensures t in EXCLUDED_TABLES <==>
            || t == "tenants" || t == "knex_migrations" || t == "knex_migrations_lock"
            || t == "pending_tenant_deletions" || t == "spatial_ref_sys"
  {
    assert t in EXCLUDED_TABLES <==> exists k :: 0 <= k < 5 && EXCLUDED_TABLES[k] == t;
    assert EXCLUDED_TABLES[0] == "tenants" && EXCLUDED_TABLES[1] == "knex_migrations";
    assert EXCLUDED_TABLES[2] == "knex_migrations_lock" && EXCLUDED_TABLES[3] == "pending_tenant_deletions";
    assert EXCLUDED_TABLES[4] == "spatial_ref_sys";
  }

  /** A table is listed exactly when its first index is a position in the list. */
  lemma {:induction false} FirstIndexListed(order: seq<string>, t: string)
    ensures t in order <==> FirstIndex(order, t) < |order|
  {
    var i := FirstIndex(order, t);
    if i == |order| {
      assert order[..i] == order;
    }
  }

  // ---------------------------------------------------------------------------
  // Rows, references and deletion
  // ---------------------------------------------------------------------------

  datatype Row = Row(table: string, tenant: string, id: nat)

  /** A non-null foreign key value: `child` holds `fk` pointing at `parent`. */
  datatype Ref = Ref(child: Row, fk: ForeignKey, parent: Row)

  datatype Db = Db(rows: set<Row>, refs: set<Ref>)

  datatype Outcome = Blocked | Done(db: Db)

  /** Referential integrity for composite keys: references stay in one tenant, one parent for each key of a row. */
  ghost predicate Legal(db: Db, fks: seq<ForeignKey>) {
    && (forall r :: r in db.refs ==>
          && r.child in db.rows && r.parent in db.rows && r.fk in fks
          && r.child.table == r.fk.child && r.parent.table == r.fk.parent && r.child.tenant == r.parent.tenant)
    && (forall r, q :: r in db.refs && q in db.refs && r.child == q.child && r.fk == q.fk ==> r == q)
  }

  predicate RefsInRows(db: Db) {
    forall r :: r in db.refs ==> r.child in db.rows
  }

  /** Rows that a cascading reference points from into `gone`. */
  function CascadedFrom(db: Db, gone: set<Row>): set<Row> {
    set r | r in db.refs && r.fk.rule == Cascade && r.parent in gone :: r.child
  }

  /** Everything that goes when `gone` goes: cascades followed until nothing is added. */
  function Sweep(db: Db, gone: set<Row>): set<Row>
    requires RefsInRows(db)
    decreases db.rows - gone
  {
    var more := CascadedFrom(db, gone) - gone;
    if more == {} then gone
    else
      assert more <= db.rows - gone;
      Sweep(db, gone + more)
  }

  function Victims(db: Db, table: string, tenant: string): set<Row> {
    set r | r in db.rows && r.table == table && r.tenant == tenant
  }

  /** A restrictive reference from a surviving row into `gone` blocks the statement. */
  predicate BlockedBy(db: Db, gone: set<Row>) {
    exists r :: r in db.refs && Restrictive(r.fk) && r.parent in gone && r.child !in gone
  }

  /** One DELETE: the tenant's rows of a table and what cascades; references into them are nulled. */
  function DeleteTable(db: Db, table: string, tenant: string): Outcome
    requires RefsInRows(db)
  {
    var gone := Sweep(db, Victims(db, table, tenant));
    if BlockedBy(db, gone) then Blocked
    else Done(Db(db.rows - gone, set r | r in db.refs && r.child !in gone && r.parent !in gone))
  }

  function DeleteAll(db: Db, order: seq<string>, tenant: string): Outcome
    requires RefsInRows(db)
    decreases order
  {
    if order == [] then Done(db)
    else
      match DeleteTable(db, order[0], tenant)
      case Blocked => Blocked
      case Done(next) => DeleteAll(next, order[1..], tenant)
  }

  /** The exempt columns of the tenant are nulled before deletion begins. */
  function BreakCycles(db: Db, exempt: set<string>, tenant: string): Db {
    Db(db.rows, set r | r in db.refs && !(r.fk.name in exempt && r.child.tenant == tenant))
  }

  /** The purpose of a deletion order: from every legal database, for every tenant, no deletion is blocked. */
  ghost predicate NeverBlocked(order: seq<string>, fks: seq<ForeignKey>, exempt: set<string>) {
    forall db, tenant :: Legal(db, fks) ==> DeleteAll(BreakCycles(db, exempt, tenant), order, tenant).Done?
  }

  // ---------------------------------------------------------------------------
  // Sweeps
  // ---------------------------------------------------------------------------

  ghost predicate CascadeClosed(db: Db, s: set<Row>) {
    forall r :: r in db.refs && r.fk.rule == Cascade && r.parent in s ==> r.child in s
  }

  /** The sweep is the least cascade-closed set of rows that contains the victims. */
  lemma {:induction false} SweepIsLeast(db: Db, gone: set<Row>)
    requires RefsInRows(db)
    ensures gone <= Sweep(db, gone)
    ensures CascadeClosed(db, Sweep(db, gone))
    ensures forall s :: gone <= s && CascadeClosed(db, s) ==> Sweep(db, gone) <= s
    decreases db.rows - gone
  {
    var more := CascadedFrom(db, gone) - gone;
    if more == {} {
      forall r | r in db.refs && r.fk.rule == Cascade && r.parent in gone
        ensures r.child in gone
      {
        assert r.child in CascadedFrom(db, gone) && r.child !in more;
      }
    } else {
      assert more <= db.rows - gone;
      SweepIsLeast(db, gone + more);
    }
  }

  // ---------------------------------------------------------------------------
  // Hazards: exactly when some database blocks
  // ---------------------------------------------------------------------------

  function PathEnd(path: seq<ForeignKey>, start: string): string {
    if path == [] then start else path[|path| - 1].child
  }

  /** Cascading keys leading down from `start` through tables that are not in `dead`. */
  ghost predicate CascadePath(
    fks: seq<ForeignKey>, exempt: set<string>, dead: seq<string>, path: seq<ForeignKey>, start: string)
  {
    forall j :: 0 <= j < |path| ==>
      && path[j] in fks && path[j].rule == Cascade && path[j].name !in exempt && path[j].child !in dead
      && path[j].parent == PathEnd(path[..j], start)
  }

  /**
   * Deleting the table at position `i` can cascade along `path` to rows that a table not yet emptied, other than the
   * one being deleted, references restrictively through `f`.
   */
  ghost predicate Hazard(
    order: seq<string>, fks: seq<ForeignKey>, exempt: set<string>, i: nat, path: seq<ForeignKey>, f: ForeignKey)
  {
    && i < |order| && order[i] !in order[..i]
    && CascadePath(fks, exempt, order[..i], path, order[i])
    && f in fks && Restrictive(f) && f.name !in exempt
    && f.parent == PathEnd(path, order[i]) && f.child !in order[..i] && f.child != order[i]
  }

  ghost predicate HazardFree(order: seq<string>, fks: seq<ForeignKey>, exempt: set<string>) {
    forall i: nat, path, f :: !Hazard(order, fks, exempt, i, path, f)
  }

  ghost predicate Reachable(
    fks: seq<ForeignKey>, exempt: set<string>, dead: seq<string>, start: string, table: string)
  {
    exists path :: CascadePath(fks, exempt, dead, path, start) && PathEnd(path, start) == table
  }

  lemma ExtendPath(
    fks: seq<ForeignKey>, exempt: set<string>, dead: seq<string>, start: string, table: string, fk: ForeignKey)
    requires Reachable(fks, exempt, dead, start, table)
    requires fk in fks && fk.rule == Cascade && fk.name !in exempt && fk.child !in dead && fk.parent == table
    ensures Reachable(fks, exempt, dead, start, fk.child)
  {
    var path :| CascadePath(fks, exempt, dead, path, start) && PathEnd(path, start) == table;
    var longer := path + [fk];
    assert forall j :: 0 <= j <= |path| ==> longer[..j] == path[..j];
    assert path[..|path|] == path;
    assert CascadePath(fks, exempt, dead, longer, start);
  }

  /** What holds of the database when the first `i` tables have been deleted. */
  ghost predicate Emptied(db: Db, fks: seq<ForeignKey>, exempt: set<string>, dead: seq<string>, tenant: string) {
    && Legal(db, fks)
    && (forall r :: r in db.refs && r.child.tenant == tenant ==> r.fk.name !in exempt)
    && (forall row :: row in db.rows && row.tenant == tenant ==> row.table !in dead)
  }

  /** Rows swept by deleting `table` belong to the tenant and lie in tables that cascades reach. */
  lemma SweptRows(db: Db, fks: seq<ForeignKey>, exempt: set<string>, dead: seq<string>, table: string, tenant: string)
    requires Emptied(db, fks, exempt, dead, tenant)
    ensures forall row :: row in Sweep(db, Victims(db, table, tenant)) ==>
              row in db.rows && row.tenant == tenant && Reachable(fks, exempt, dead, table, row.table)
  {
    var victims := Victims(db, table, tenant);
    SweepIsLeast(db, victims);
    ghost var s := set row | row in db.rows && row.tenant == tenant && Reachable(fks, exempt, dead, table, row.table);
    assert CascadePath(fks, exempt, dead, [], table) && PathEnd([], table) == table;
    assert victims <= s;
    forall r | r in db.refs && r.fk.rule == Cascade && r.parent in s
      ensures r.child in s
    {
      ExtendPath(fks, exempt, dead, table, r.parent.table, r.fk);
    }
    assert CascadeClosed(db, s);
  }

  lemma DeleteKeepsEmptied(
    db: Db, fks: seq<ForeignKey>, exempt: set<string>, dead: seq<string>, table: string, tenant: string)
    requires Emptied(db, fks, exempt, dead, tenant)
    requires DeleteTable(db, table, tenant).Done?
    ensures Emptied(DeleteTable(db, table, tenant).db, fks, exempt, dead + [table], tenant)
  {
    SweepIsLeast(db, Victims(db, table, tenant));
  }

  /** One step of a hazard-free order is not blocked. */
  lemma StepNotBlocked(
    db: Db, order: seq<string>, fks: seq<ForeignKey>, exempt: set<string>, i: nat, tenant: string)
    requires HazardFree(order, fks, exempt) && i < |order|
    requires Emptied(db, fks, exempt, order[..i], tenant)
    ensures DeleteTable(db, order[i], tenant).Done?
  {
    var victims := Victims(db, order[i], tenant);
    var gone := Sweep(db, victims);
    SweepIsLeast(db, victims);
    SweptRows(db, fks, exempt, order[..i], order[i], tenant);
    if order[i] in order[..i] {
      assert victims == {};
      assert CascadeClosed(db, {});
    } else {
      forall r | r in db.refs && Restrictive(r.fk) && r.parent in gone
        ensures r.child in gone
      {
        var path :| CascadePath(fks, exempt, order[..i], path, order[i]) && PathEnd(path, order[i]) == r.parent.table;
        assert !Hazard(order, fks, exempt, i, path, r.fk);
        assert r.child.table == order[i] ==> r.child in victims;
      }
    }
  }

  lemma {:induction false} RunNotBlocked(
    db: Db, order: seq<string>, fks: seq<ForeignKey>, exempt: set<string>, i: nat, tenant: string)
    requires HazardFree(order, fks, exempt) && i <= |order|
    requires Emptied(db, fks, exempt, order[..i], tenant)
    ensures DeleteAll(db, order[i..], tenant).Done?
    ensures Emptied(DeleteAll(db, order[i..], tenant).db, fks, exempt, order, tenant)
    decreases |order| - i
  {
    if i == |order| {
      assert order[..i] == order;
    } else {
      StepNotBlocked(db, order, fks, exempt, i, tenant);
      DeleteKeepsEmptied(db, fks, exempt, order[..i], order[i], tenant);
      assert order[..i + 1] == order[..i] + [order[i]];
      assert order[i..][1..] == order[i + 1..];
      RunNotBlocked(DeleteTable(db, order[i], tenant).db, order, fks, exempt, i + 1, tenant);
    }
  }

  // ---------------------------------------------------------------------------
  // Every hazard is real: a database that blocks
  // ---------------------------------------------------------------------------

  function ChainRow(path: seq<ForeignKey>, start: string, tenant: string, j: nat): Row
    requires j <= |path|
  {
    Row(PathEnd(path[..j], start), tenant, j)
  }

  /** One row in each table of the path, each pointing at the one before, and a row of `f`'s table at the end. */
  function ChainDb(path: seq<ForeignKey>, start: string, f: ForeignKey, tenant: string): Db {
    var last := Row(f.child, tenant, |path| + 1);
    Db((set j | 0 <= j <= |path| :: ChainRow(path, start, tenant, j)) + {last},
       (set j | 0 <= j < |path| :: Ref(ChainRow(path, start, tenant, j + 1), path[j], ChainRow(path, start, tenant, j)))
       + {Ref(last, f, ChainRow(path, start, tenant, |path|))})
  }

  /** The tables along the chain: each row's table is the child of the key it holds. */
  lemma ChainTables(path: seq<ForeignKey>, start: string, tenant: string, j: nat)
    requires j < |path|
    ensures ChainRow(path, start, tenant, j + 1) == Row(path[j].child, tenant, j + 1)
    ensures ChainRow(path, start, tenant, 0) == Row(start, tenant, 0)
    ensures ChainRow(path, start, tenant, |path|).table == PathEnd(path, start)
  {
    assert path[..j + 1][j] == path[j];
    assert path[..|path|] == path && path[..0] == [];
  }

  /** Every reference of the chain is a key of the schema that is not exempt, within the tenant and the rows. */
  lemma ChainRefIsLegal(
    order: seq<string>, fks: seq<ForeignKey>, exempt: set<string>, i: nat, path: seq<ForeignKey>, f: ForeignKey,
    tenant: string, r: Ref)
    requires Hazard(order, fks, exempt, i, path, f) && r in ChainDb(path, order[i], f, tenant).refs
    ensures var db := ChainDb(path, order[i], f, tenant);
            && r.child in db.rows && r.parent in db.rows && r.fk in fks && r.fk.name !in exempt
            && r.child.table == r.fk.child && r.parent.table == r.fk.parent && r.child.tenant == r.parent.tenant
  {
    hide PathEnd;
    var start := order[i];
    assert path[..|path|] == path;
    if r != Ref(Row(f.child, tenant, |path| + 1), f, ChainRow(path, start, tenant, |path|)) {
      var j :| 0 <= j < |path|
        && r == Ref(ChainRow(path, start, tenant, j + 1), path[j], ChainRow(path, start, tenant, j));
      ChainTables(path, start, tenant, j);
    }
  }

  /** Each row holds one reference at most. */
  lemma ChainRefsDiffer(path: seq<ForeignKey>, start: string, f: ForeignKey, tenant: string)
    ensures var db := ChainDb(path, start, f, tenant);
            forall r, q :: r in db.refs && q in db.refs && r.child == q.child ==> r == q
  {
    hide PathEnd;
  }

  lemma ChainRowsAlive(
    order: seq<string>, fks: seq<ForeignKey>, exempt: set<string>, i: nat, path: seq<ForeignKey>, f: ForeignKey,
    tenant: string, row: Row)
    requires Hazard(order, fks, exempt, i, path, f) && row in ChainDb(path, order[i], f, tenant).rows
    ensures row.table !in order[..i]
  {
    hide PathEnd;
    if row != Row(f.child, tenant, |path| + 1) {
      var j :| 0 <= j <= |path| && row == ChainRow(path, order[i], tenant, j);
      if j > 0 {
        ChainTables(path, order[i], tenant, j - 1);
      } else if |path| > 0 {
        ChainTables(path, order[i], tenant, 0);
      } else {
        ChainStart(order[i]);
      }
    }
  }

  lemma ChainStart(start: string)
    ensures PathEnd([], start) == start
  {
  }

  lemma ChainIsLegal(
    order: seq<string>, fks: seq<ForeignKey>, exempt: set<string>, i: nat, path: seq<ForeignKey>, f: ForeignKey,
    tenant: string)
    requires Hazard(order, fks, exempt, i, path, f)
    ensures var db := ChainDb(path, order[i], f, tenant);
            && Legal(db, fks) && BreakCycles(db, exempt, tenant) == db
            && forall row :: row in db.rows ==> row.table !in order[..i]
  {
    hide CascadePath, PathEnd, ChainDb;
    var db := ChainDb(path, order[i], f, tenant);
    forall r | r in db.refs
      ensures r.child in db.rows && r.parent in db.rows && r.fk in fks && r.fk.name !in exempt
      ensures r.child.table == r.fk.child && r.parent.table == r.fk.parent && r.child.tenant == r.parent.tenant
    {
      ChainRefIsLegal(order, fks, exempt, i, path, f, tenant, r);
    }
    ChainRefsDiffer(path, order[i], f, tenant);
    forall row | row in db.rows
      ensures row.table !in order[..i]
    {
      ChainRowsAlive(order, fks, exempt, i, path, f, tenant, row);
    }
    assert BreakCycles(db, exempt, tenant).refs == db.refs;
  }

  lemma {:induction false} ChainIsSwept(path: seq<ForeignKey>, start: string, f: ForeignKey, tenant: string, j: nat)
    requires j <= |path| && (forall k :: 0 <= k < |path| ==> path[k].rule == Cascade)
    ensures var db := ChainDb(path, start, f, tenant);
            RefsInRows(db) && ChainRow(path, start, tenant, j) in Sweep(db, Victims(db, start, tenant))
  {
    var db := ChainDb(path, start, f, tenant);
    SweepIsLeast(db, Victims(db, start, tenant));
    if j == 0 {
      assert ChainRow(path, start, tenant, 0) in Victims(db, start, tenant);
    } else {
      ChainIsSwept(path, start, f, tenant, j - 1);
      assert Ref(ChainRow(path, start, tenant, j), path[j - 1], ChainRow(path, start, tenant, j - 1)) in db.refs;
    }
  }

  /** Deleting tables in which the tenant has no rows changes nothing. */
  lemma {:induction false} SkipEmptyTables(db: Db, fks: seq<ForeignKey>, order: seq<string>, i: nat, tenant: string)
    requires Legal(db, fks) && i <= |order|
    requires forall row :: row in db.rows ==> row.table !in order[..i]
    ensures DeleteAll(db, order, tenant) == DeleteAll(db, order[i..], tenant)
    decreases i
  {
    if i > 0 {
      var victims := Victims(db, order[0], tenant);
      assert order[..i][0] == order[0];
      assert victims == {};
      SweepIsLeast(db, victims);
      assert CascadeClosed(db, {});
      var next := DeleteTable(db, order[0], tenant);
      assert next.db == db;
      assert order[1..][..i - 1] == order[..i][1..];
      SkipEmptyTables(db, fks, order[1..], i - 1, tenant);
      assert order[1..][i - 1..] == order[i..];
    }
  }

  lemma ChainRefs(path: seq<ForeignKey>, start: string, f: ForeignKey, tenant: string)
    ensures var db := ChainDb(path, start, f, tenant);
            && RefsInRows(db)
            && forall r :: r in db.refs ==> r.fk == f || r.child.id <= |path|
  {
  }

  /** The row at the end of the chain holds no cascading key, so it survives the deletion of the chain's start. */
  lemma LastRowSurvives(path: seq<ForeignKey>, start: string, f: ForeignKey, tenant: string)
    requires f.child != start && Restrictive(f)
    ensures var db := ChainDb(path, start, f, tenant);
            RefsInRows(db) && Row(f.child, tenant, |path| + 1) !in Sweep(db, Victims(db, start, tenant))
  {
    hide ChainDb, ChainRow, Sweep;
    ChainRefs(path, start, f, tenant);
    var db := ChainDb(path, start, f, tenant);
    var last := Row(f.child, tenant, |path| + 1);
    var others := db.rows - {last};
    var victims := Victims(db, start, tenant);
    SweepIsLeast(db, victims);
    assert CascadeClosed(db, others) && victims <= others;
  }

  lemma HazardBlocks(
    order: seq<string>, fks: seq<ForeignKey>, exempt: set<string>, i: nat, path: seq<ForeignKey>, f: ForeignKey,
    tenant: string)
    requires Hazard(order, fks, exempt, i, path, f)
    ensures var db := ChainDb(path, order[i], f, tenant);
            Legal(db, fks) && DeleteAll(BreakCycles(db, exempt, tenant), order, tenant) == Blocked
  {
    hide ChainDb, ChainRow, Sweep, Legal;
    var start := order[i];
    ChainIsLegal(order, fks, exempt, i, path, f, tenant);
    ChainIsSwept(path, start, f, tenant, |path|);
    LastRowSurvives(path, start, f, tenant);
    LastRef(path, start, f, tenant);
    var db := ChainDb(path, start, f, tenant);
    SkipEmptyTables(db, fks, order, i, tenant);
    assert BlockedBy(db, Sweep(db, Victims(db, start, tenant)));
    assert DeleteAll(db, order[i..], tenant) == Blocked;
  }

  lemma LastRef(path: seq<ForeignKey>, start: string, f: ForeignKey, tenant: string)
    ensures Ref(Row(f.child, tenant, |path| + 1), f, ChainRow(path, start, tenant, |path|))
            in ChainDb(path, start, f, tenant).refs
  {
  }

  // ---------------------------------------------------------------------------
  // Main results
  // ---------------------------------------------------------------------------

  /** The exact condition: an order is never blocked if and only if it has no hazard. */
  lemma OrderExact(order: seq<string>, fks: seq<ForeignKey>, exempt: set<string>)
    ensures NeverBlocked(order, fks, exempt) <==> HazardFree(order, fks, exempt)
  {
    if HazardFree(order, fks, exempt) {
      forall db, tenant | Legal(db, fks)
        ensures DeleteAll(BreakCycles(db, exempt, tenant), order, tenant).Done?
      {
        assert order[..0] == [] && order[0..] == order;
        RunNotBlocked(BreakCycles(db, exempt, tenant), order, fks, exempt, 0, tenant);
      }
    } else {
      var i, path, f :| Hazard(order, fks, exempt, i, path, f);
      HazardBlocks(order, fks, exempt, i, path, f, "t");
    }
  }

  /** Every reported violation is real: it is a hazard, so some database blocks the ordered deletion. */
  lemma ViolationIsHazard(fk: ForeignKey, order: seq<string>, fks: seq<ForeignKey>, exempt: set<string>)
    requires fk in fks && Violates(fk, order, exempt)
    ensures Hazard(order, fks, exempt, FirstIndex(order, fk.parent), [], fk)
    ensures !NeverBlocked(order, fks, exempt)
  {
    var i := FirstIndex(order, fk.parent);
    FirstIndexListed(order, fk.parent);
    assert order[..i] == order[..FirstIndex(order, fk.child)][..i];
    HazardBlocks(order, fks, exempt, i, [], fk, "t");
  }

  /** Cascading children (other than the table itself) are listed before their listed parents. */
  ghost predicate CascadeChildrenFirst(order: seq<string>, fks: seq<ForeignKey>, exempt: set<string>) {
    forall fk :: fk in fks && fk.rule == Cascade && fk.name !in exempt && fk.parent in order && fk.child != fk.parent ==>
      fk.child in order[..FirstIndex(order, fk.parent)]
  }

  /** No restrictive key leads from a table outside the list to a listed one. */
  predicate NoOutsideChild(order: seq<string>, fks: seq<ForeignKey>, exempt: set<string>) {
    forall fk :: fk in fks && Restrictive(fk) && fk.name !in exempt && fk.parent in order ==> fk.child in order
  }

  lemma {:induction false} PathsStayAtStart(
    order: seq<string>, fks: seq<ForeignKey>, exempt: set<string>, i: nat, path: seq<ForeignKey>, j: nat)
    requires i < |order| && order[i] !in order[..i] && j <= |path|
    requires CascadeChildrenFirst(order, fks, exempt)
    requires CascadePath(fks, exempt, order[..i], path, order[i])
    ensures PathEnd(path[..j], order[i]) == order[i]
  {
    if j > 0 {
      PathsStayAtStart(order, fks, exempt, i, path, j - 1);
      FirstIndexIs(order, order[i], i);
      assert path[..j][j - 1] == path[j - 1];
      assert path[j - 1] in fks;
    }
  }

  lemma FirstIndexInPrefix(order: seq<string>, t: string, i: nat)
    requires i <= |order|
    ensures FirstIndex(order, t) < i ==> t in order[..i]
  {
    if FirstIndex(order, t) < i {
      assert order[..i][FirstIndex(order, t)] == t;
    }
  }

  lemma UnblockedOrdersPass(order: seq<string>, fks: seq<ForeignKey>, exempt: set<string>)
    requires HazardFree(order, fks, exempt)
    ensures Violations(fks, order, exempt) == [] && NoOutsideChild(order, fks, exempt)
  {
    hide Violations;
    ViolationsExact(fks, order, exempt);
    forall fk | fk in fks
      ensures !Violates(fk, order, exempt)
    {
      if Violates(fk, order, exempt) {
        ViolationIsHazard(fk, order, fks, exempt);
      }
    }
    forall fk | fk in fks && Restrictive(fk) && fk.name !in exempt && fk.parent in order
      ensures fk.child in order
    {
      FirstIndexListed(order, fk.parent);
      assert !Hazard(order, fks, exempt, FirstIndex(order, fk.parent), [], fk);
    }
  }

  lemma PassingOrdersAreHazardFree(order: seq<string>, fks: seq<ForeignKey>, exempt: set<string>)
    requires CascadeChildrenFirst(order, fks, exempt)
    requires Violations(fks, order, exempt) == [] && NoOutsideChild(order, fks, exempt)
    ensures HazardFree(order, fks, exempt)
  {
    hide Violations;
    ViolationsExact(fks, order, exempt);
    forall i: nat, path, f | Hazard(order, fks, exempt, i, path, f)
      ensures false
    {
      PathsStayAtStart(order, fks, exempt, i, path, |path|);
      assert path[..|path|] == path;
      FirstIndexIs(order, order[i], i);
      FirstIndexListed(order, f.child);
      FirstIndexInPrefix(order, f.child, i);
    }
  }

  /**
   * When cascading children come first, the checker misses exactly the tables outside its list: the order is never
   * blocked if and only if no violation is reported and no restrictive key comes from an unlisted table.
   */
  lemma CheckerExact(order: seq<string>, fks: seq<ForeignKey>, exempt: set<string>)
    requires CascadeChildrenFirst(order, fks, exempt)
    ensures NeverBlocked(order, fks, exempt) <==>
            Violations(fks, order, exempt) == [] && NoOutsideChild(order, fks, exempt)
  {
    hide *;
    OrderExact(order, fks, exempt);
    if HazardFree(order, fks, exempt) {
      UnblockedOrdersPass(order, fks, exempt);
    }
    if Violations(fks, order, exempt) == [] && NoOutsideChild(order, fks, exempt) {
      PassingOrdersAreHazardFree(order, fks, exempt);
    }
  }

  /**
   * What a successful validation is for. With cascading children first and no restrictive key from outside the list,
   * deletion runs to the end from every legal database and leaves the tenant no row in any non-excluded tenant table.
   */
  lemma ValidatedDeletion(
    order: seq<string>, dbTables: seq<string>, fks: seq<ForeignKey>, db: Db, tenant: string)
    requires Without(Without(dbTables, EXCLUDED_TABLES), order) == []
    requires Violations(fks, order, EXEMPT_FK_CONSTRAINTS) == []
    requires CascadeChildrenFirst(order, fks, EXEMPT_FK_CONSTRAINTS)
    requires NoOutsideChild(order, fks, EXEMPT_FK_CONSTRAINTS)
    requires Legal(db, fks)
    ensures var r := DeleteAll(BreakCycles(db, EXEMPT_FK_CONSTRAINTS, tenant), order, tenant);
            && r.Done?
            && forall row :: row in r.db.rows && row.tenant == tenant ==>
                 row.table !in dbTables || row.table in EXCLUDED_TABLES
  {
    var exempt := EXEMPT_FK_CONSTRAINTS;
    CheckerExact(order, fks, exempt);
    OrderExact(order, fks, exempt);
    assert order[..0] == [] && order[0..] == order;
    RunNotBlocked(BreakCycles(db, exempt, tenant), order, fks, exempt, 0, tenant);
    var r := DeleteAll(BreakCycles(db, exempt, tenant), order, tenant);
    forall row | row in r.db.rows && row.tenant == tenant
      ensures row.table !in dbTables || row.table in EXCLUDED_TABLES
    {
      WithoutExact(dbTables, EXCLUDED_TABLES, row.table);
      WithoutExact(Without(dbTables, EXCLUDED_TABLES), order, row.table);
    }
  }

  /** Other tenants keep every row and every reference, however the deletion goes on. */
  lemma {:induction false} OtherTenantsUntouched(
    db: Db, fks: seq<ForeignKey>, order: seq<string>, tenant: string, row: Row)
    requires Legal(db, fks) && DeleteAll(db, order, tenant).Done?
    requires row.tenant != tenant
    ensures row in DeleteAll(db, order, tenant).db.rows <==> row in db.rows
    ensures forall r: Ref :: r.child == row ==> (r in DeleteAll(db, order, tenant).db.refs <==> r in db.refs)
    decreases order
  {
    if order != [] {
      var victims := Victims(db, order[0], tenant);
      SweepIsLeast(db, victims);
      var mine := set q | q in db.rows && q.tenant == tenant;
      assert CascadeClosed(db, mine) && victims <= mine;
      var next := DeleteTable(db, order[0], tenant).db;
      OtherTenantsUntouched(next, fks, order[1..], tenant, row);
    }
  }

  /**
   * The whole deletion of a tenant, from the nulling of the exempt columns on, leaves every row and every reference of
   * other tenants as it was.
   */
  lemma DeletionKeepsOthers(
    db: Db, fks: seq<ForeignKey>, exempt: set<string>, order: seq<string>, tenant: string, row: Row)
    requires Legal(db, fks) && DeleteAll(BreakCycles(db, exempt, tenant), order, tenant).Done?
    requires row.tenant != tenant
    ensures var after := DeleteAll(BreakCycles(db, exempt, tenant), order, tenant).db;
            && (row in after.rows <==> row in db.rows)
            && forall r: Ref :: r.child == row ==> (r in after.refs <==> r in db.refs)
  {
    hide DeleteAll;
    OtherTenantsUntouched(BreakCycles(db, exempt, tenant), fks, order, tenant, row);
  }

  /** A cycle of keys the checker looks at: each key's parent is the next key's child. */
  ghost predicate CheckedCycle(cycle: seq<ForeignKey>, order: seq<string>, exempt: set<string>) {
    && cycle != []
    && (forall j :: 0 <= j < |cycle| ==> Checked(cycle[j], order, exempt))
    && (forall j :: 0 < j < |cycle| ==> cycle[j - 1].parent == cycle[j].child)
    && cycle[|cycle| - 1].parent == cycle[0].child
  }

  lemma {:induction false} IndicesGrow(cycle: seq<ForeignKey>, order: seq<string>, j: nat)
    requires j < |cycle|
    requires forall k :: 0 < k < |cycle| ==> cycle[k - 1].parent == cycle[k].child
    requires forall k :: 0 <= k < |cycle| ==> FirstIndex(order, cycle[k].child) < FirstIndex(order, cycle[k].parent)
    ensures FirstIndex(order, cycle[0].child) < FirstIndex(order, cycle[j].parent)
  {
    if j > 0 {
      IndicesGrow(cycle, order, j - 1);
    }
  }

  /** Cycle detection: no order of the tables can hide a cycle of checked keys. */
  lemma CyclesAreReported(cycle: seq<ForeignKey>, order: seq<string>, fks: seq<ForeignKey>, exempt: set<string>)
    requires CheckedCycle(cycle, order, exempt)
    requires forall j :: 0 <= j < |cycle| ==> cycle[j] in fks
    ensures Violations(fks, order, exempt) != []
  {
    ViolationsExact(fks, order, exempt);
    if Violations(fks, order, exempt) == [] {
      forall k | 0 <= k < |cycle|
        ensures FirstIndex(order, cycle[k].child) < FirstIndex(order, cycle[k].parent)
      {
        assert !Violates(cycle[k], order, exempt);
      }
      IndicesGrow(cycle, order, |cycle| - 1);
    }
  }

  /**
   * The checker lets CASCADE keys stand in either order. That is too generous: with B cascading to A and C referring
   * restrictively to B, the order A, C, B passes every check, yet a database blocks it at the first table.
   */
  lemma CascadeGap()
    ensures var order, fks :=
              ["a", "c", "b"], [ForeignKey("b", "a", "b_a", Cascade), ForeignKey("c", "b", "c_b", NoAction)];
            && Violations(fks, order, EXEMPT_FK_CONSTRAINTS) == []
            && Repeats(order, |order|) == [] && Without(order, order) == []
            && NoOutsideChild(order, fks, EXEMPT_FK_CONSTRAINTS)
            && !NeverBlocked(order, fks, EXEMPT_FK_CONSTRAINTS)
  {
    var order := ["a", "c", "b"];
    var down, up := ForeignKey("b", "a", "b_a", Cascade), ForeignKey("c", "b", "c_b", NoAction);
    GapPassesTheChecks(down, up);
    GapIsHazard(down, up);
    HazardBlocks(order, [down, up], EXEMPT_FK_CONSTRAINTS, 0, [down], up, "t");
  }

  lemma GapPassesTheChecks(down: ForeignKey, up: ForeignKey)
    requires down == ForeignKey("b", "a", "b_a", Cascade) && up == ForeignKey("c", "b", "c_b", NoAction)
    ensures var order, fks := ["a", "c", "b"], [down, up];
            && Violations(fks, order, EXEMPT_FK_CONSTRAINTS) == []
            && Repeats(order, |order|) == [] && Without(order, order) == []
            && NoOutsideChild(order, fks, EXEMPT_FK_CONSTRAINTS)
  {
    hide FirstIndex, Violations, Repeats, Without;
    var order, fks := ["a", "c", "b"], [down, up];
    FirstIndexIs(order, "c", 1);
    FirstIndexIs(order, "b", 2);
    ViolationsExact(fks, order, EXEMPT_FK_CONSTRAINTS);
    RepeatsExact(order, |order|);
    if Without(order, order) != [] {
      WithoutExact(order, order, Without(order, order)[0]);
    }
  }

  lemma GapIsHazard(down: ForeignKey, up: ForeignKey)
    requires down == ForeignKey("b", "a", "b_a", Cascade) && up == ForeignKey("c", "b", "c_b", NoAction)
    ensures Hazard(["a", "c", "b"], [down, up], EXEMPT_FK_CONSTRAINTS, 0, [down], up)
  {
    assert [down][..0] == [];
    assert CascadePath([down, up], EXEMPT_FK_CONSTRAINTS, ["a", "c", "b"][..0], [down], "a");
  }

  /**
   * The checker skips keys of tables outside its list as outside the deletion. They can block it all the same: C, not
   * listed, refers restrictively to A, the order A passes, and a database blocks it.
   */
  lemma UnlistedChildGap()
    ensures var order, fks := ["a"], [ForeignKey("c", "a", "c_a", NoAction)];
            && Violations(fks, order, EXEMPT_FK_CONSTRAINTS) == []
            && Repeats(order, |order|) == [] && Without(order, order) == []
            && CascadeChildrenFirst(order, fks, EXEMPT_FK_CONSTRAINTS)
            && !NeverBlocked(order, fks, EXEMPT_FK_CONSTRAINTS)
  {
    hide Violations, Repeats, Without, FirstIndex, NeverBlocked;
    var order, fks := ["a"], [ForeignKey("c", "a", "c_a", NoAction)];
    ViolationsExact(fks, order, EXEMPT_FK_CONSTRAINTS);
    RepeatsExact(order, |order|);
    if Without(order, order) != [] {
      WithoutExact(order, order, Without(order, order)[0]);
    }
    assert fks[0] in fks && !NoOutsideChild(order, fks, EXEMPT_FK_CONSTRAINTS);
    CheckerExact(order, fks, EXEMPT_FK_CONSTRAINTS);
  }
}
