/**
 The registration statuses of a workspace: the merged map of builtin and stored statuses, and the SQL
 predicate that excludes a registration from the balancer pool.

 The builtin statuses are a parameter; `BUILTINS` is the shipped table without its icons and texts.
 Stored rows of other scopes and kinds than the two known ones are not modelled.
 */
module StatusCatalog {
  import opened Wrappers

  datatype Scope = Registration | Balancer

  datatype Kind = Builtin | Custom

  /** A stored status; `workspace` is empty for the global rows. */
  datatype Row = Row(id: int, workspace: Option<int>, scope: Scope, slug: string, kind: Kind, name: string,
                     excludesFromBalancer: bool, excludesFromReady: bool)

  datatype Meta = Meta(value: string, scope: Scope, kind: Kind, isOverride: bool, canDelete: bool, name: string,
                       excludesFromBalancer: bool, excludesFromReady: bool)

  type Key = (Scope, string)

  type Catalog = map<Key, Meta>

  function Shipped(scope: Scope, slug: string, name: string, excluded: bool): Meta {
    Meta(slug, scope, Builtin, false, false, name, excluded, false)
  }

  const BUILTINS: Catalog := map[
    (Registration, "pending") := Shipped(Registration, "pending", "Pending", false),
    (Registration, "approved") := Shipped(Registration, "approved", "Approved", false),
    (Registration, "rejected") := Shipped(Registration, "rejected", "Rejected", false),
    (Registration, "withdrawn") := Shipped(Registration, "withdrawn", "Withdrawn", false),
    (Registration, "banned") := Shipped(Registration, "banned", "Banned", false),
    (Registration, "insufficient_data") := Shipped(Registration, "insufficient_data", "Incomplete", false),
    (Balancer, "not_in_balancer") := Shipped(Balancer, "not_in_balancer", "Not Added", true),
    (Balancer, "excluded") := Shipped(Balancer, "excluded", "Excluded", true),
    (Balancer, "incomplete") := Shipped(Balancer, "incomplete", "Incomplete", false),
    (Balancer, "ready") := Shipped(Balancer, "ready", "Ready", false)]

  // ---- the merged map ----

  function KeyOf(row: Row): Key {
    (row.scope, row.slug)
  }

  function MetaOf(catalog: Catalog, row: Row): Meta {
    var known := KeyOf(row) in catalog;
    Meta(row.slug, row.scope, row.kind, row.kind == Builtin && row.workspace.Some?, row.kind == Custom, row.name,
         if row.kind == Custom then row.excludesFromBalancer else known && catalog[KeyOf(row)].excludesFromBalancer,
         if row.kind == Custom then row.excludesFromReady else known && catalog[KeyOf(row)].excludesFromReady)
  }

  /** A global row that is not builtin is ignored. */
  predicate Counts(row: Row) {
    row.workspace.Some? || row.kind == Builtin
  }

  /** The map after the rows in order: a later row of the same key replaces an earlier one. */
  function Overlay(catalog: Catalog, rows: seq<Row>): Catalog {
    if rows == [] then map[]
    else
      var before, last := Overlay(catalog, rows[..|rows| - 1]), rows[|rows| - 1];
      if Counts(last) then before[KeyOf(last) := MetaOf(catalog, last)] else before
  }

  method StatusMetasMap(catalog: Catalog, rows: seq<Row>) returns (merged: Catalog)
    ensures merged == catalog + Overlay(catalog, rows)
  {
    merged := map[];
    for i := 0 to |rows|
      invariant merged == Overlay(catalog, rows[..i])
    {
      assert rows[..i + 1][..i] == rows[..i];
      if rows[i].workspace.None? && rows[i].kind != Builtin {
        continue;
      }
      merged := merged[KeyOf(rows[i]) := MetaOf(catalog, rows[i])];
    }
    assert rows[..|rows|] == rows;
    ghost var overlay := merged;
    var todo := catalog.Keys;
    while todo != {}
      invariant todo <= catalog.Keys
      invariant forall k :: k in merged <==> k in overlay || (k in catalog && k !in todo)
      invariant forall k :: k in merged ==> merged[k] == if k in overlay then overlay[k] else catalog[k]
      decreases todo
    {
      ghost var some := Member(todo);
      var k :| k in todo;
      if k !in merged {
        merged := merged[k := catalog[k]];
      }
      todo := todo - {k};
    }
  }

  /** The metadata of the status a registration holds; a slug the map lacks is an unknown status. */
  function Resolved(merged: Catalog, scope: Scope, slug: string): Meta {
    if (scope, slug) in merged then merged[(scope, slug)]
    else Meta(slug, scope, Custom, false, false, slug, false, false)
  }

  // ---- the rows of a workspace ----

  /** Scope, then global rows first, then builtin before custom; names and ids order the rest. */
  predicate NotAfter(a: Row, b: Row) {
    || (a.scope == Balancer && b.scope == Registration)
    || (a.scope == b.scope && a.workspace.None? && b.workspace.Some?)
    || (a.scope == b.scope && a.workspace.None? == b.workspace.None? && (a.kind == Builtin || b.kind == Custom))
  }

  /** What the query for a workspace returns: its own rows and the global ones, in order. */
  ghost predicate Listing(rows: seq<Row>, table: set<Row>, workspace: int) {
    && (forall r :: r in rows <==> r in table && (r.workspace.None? || r.workspace == Some(workspace)))
    && (forall i, j :: 0 <= i < j < |rows| ==> NotAfter(rows[i], rows[j]))
  }

  predicate SameSlot(a: Row, b: Row) {
    a.workspace == b.workspace && KeyOf(a) == KeyOf(b) && a.kind == b.kind
  }

  /** The table's unique constraint; it does not bind global rows, whose workspace is NULL. */
  ghost predicate UniqueRows(table: set<Row>) {
    forall a, b :: a in table && b in table && a.workspace.Some? && SameSlot(a, b) ==> a == b
  }

  ghost predicate CustomOf(table: set<Row>, workspace: int, key: Key, r: Row) {
    r in table && r.workspace == Some(workspace) && r.kind == Custom && KeyOf(r) == key
  }

  predicate BuiltinExcluded(catalog: Catalog, slug: string) {
    (Balancer, slug) in catalog && catalog[(Balancer, slug)].excludesFromBalancer
  }

  /** The pool-exclusion clause for a registration of a workspace that holds a balancer status. */
  ghost predicate PoolExcluded(catalog: Catalog, table: set<Row>, workspace: int, slug: string) {
    || BuiltinExcluded(catalog, slug)
    || exists r :: CustomOf(table, workspace, (Balancer, slug), r) && r.excludesFromBalancer
  }

  /** The flag that the merged map gives. */
  function MapExcluded(catalog: Catalog, rows: seq<Row>, slug: string): bool {
    Resolved(catalog + Overlay(catalog, rows), Balancer, slug).excludesFromBalancer
  }

  // ---- what the last row decides ----

  /** The last row of a key that counts. */
  function LastOf(rows: seq<Row>, key: Key): (i: int)
    ensures -1 <= i < |rows|
    ensures i >= 0 ==> Counts(rows[i]) && KeyOf(rows[i]) == key
    ensures forall j :: i < j < |rows| ==> !(Counts(rows[j]) && KeyOf(rows[j]) == key)
  {
    if rows == [] then -1
    else if Counts(rows[|rows| - 1]) && KeyOf(rows[|rows| - 1]) == key then |rows| - 1
    else LastOf(rows[..|rows| - 1], key)
  }

  lemma {:induction false} LastRowWins(catalog: Catalog, rows: seq<Row>, key: Key)
    ensures var i := LastOf(rows, key);
            && (key in Overlay(catalog, rows) <==> i >= 0)
            && (i >= 0 ==> Overlay(catalog, rows)[key] == MetaOf(catalog, rows[i]))
  {
    if rows != [] {
      LastRowWins(catalog, rows[..|rows| - 1], key);
    }
  }

  /**
   A workspace's custom row decides its key, whatever else has that key: a status that can be deleted,
   overrides nothing and has the flags of its row.
   */
  lemma {:induction false} CustomDecides(catalog: Catalog, rows: seq<Row>, table: set<Row>, workspace: int, key: Key,
                                         r: Row)
    requires Listing(rows, table, workspace) && UniqueRows(table) && CustomOf(table, workspace, key, r)
    ensures key in Overlay(catalog, rows)
    ensures Overlay(catalog, rows)[key] ==
            Meta(key.1, key.0, Custom, false, true, r.name, r.excludesFromBalancer, r.excludesFromReady)
  {
    LastRowWins(catalog, rows, key);
    var i := LastOf(rows, key);
    assert r in rows;
    var j :| 0 <= j < |rows| && rows[j] == r;
    assert j <= i;
    assert rows[i] in rows;
    if j < i {
      assert NotAfter(rows[j], rows[i]);
    }
    assert rows[i] == r;
  }

  ghost predicate OverrideOf(table: set<Row>, workspace: int, key: Key, r: Row) {
    r in table && r.workspace == Some(workspace) && r.kind == Builtin && KeyOf(r) == key
  }

  /** Without a custom row the workspace's own row of builtin kind gives the name; its flags are not its own. */
  lemma {:induction false} OverrideDecides(catalog: Catalog, rows: seq<Row>, table: set<Row>, workspace: int, key: Key,
                                           r: Row)
    requires Listing(rows, table, workspace) && UniqueRows(table) && OverrideOf(table, workspace, key, r)
    requires forall q :: !CustomOf(table, workspace, key, q)
    ensures key in Overlay(catalog, rows)
    ensures Overlay(catalog, rows)[key] ==
            Meta(key.1, key.0, Builtin, true, false, r.name, key in catalog && catalog[key].excludesFromBalancer,
                 key in catalog && catalog[key].excludesFromReady)
  {
    LastRowWins(catalog, rows, key);
    var i := LastOf(rows, key);
    assert r in rows;
    var j :| 0 <= j < |rows| && rows[j] == r;
    assert j <= i;
    assert rows[i] in rows && !CustomOf(table, workspace, key, rows[i]);
    if j < i {
      assert NotAfter(rows[j], rows[i]);
    }
    assert rows[i] == r;
  }

  /** With neither, a global row of builtin kind gives the name, and without one the builtin status stands. */
  lemma {:induction false} GlobalDecides(catalog: Catalog, rows: seq<Row>, table: set<Row>, workspace: int, key: Key)
    requires Listing(rows, table, workspace)
    requires forall q :: !CustomOf(table, workspace, key, q) && !OverrideOf(table, workspace, key, q)
    ensures if exists r :: GlobalOf(table, key, r) then
              && key in Overlay(catalog, rows)
              && exists r :: GlobalOf(table, key, r)
                             && Overlay(catalog, rows)[key] ==
                                Meta(key.1, key.0, Builtin, false, false, r.name,
                                     key in catalog && catalog[key].excludesFromBalancer,
                                     key in catalog && catalog[key].excludesFromReady)
            else key !in Overlay(catalog, rows)
  {
    LastRowWins(catalog, rows, key);
    var i := LastOf(rows, key);
    if r :| GlobalOf(table, key, r) {
      assert r in rows;
      var j :| 0 <= j < |rows| && rows[j] == r;
      assert j <= i;
    }
    if i >= 0 {
      assert rows[i] in rows;
      assert !CustomOf(table, workspace, key, rows[i]) && !OverrideOf(table, workspace, key, rows[i]);
      assert GlobalOf(table, key, rows[i]);
    }
  }

  ghost predicate GlobalOf(table: set<Row>, key: Key, r: Row) {
    r in table && r.workspace.None? && r.kind == Builtin && KeyOf(r) == key
  }

  /** Without a custom row a key has the builtin flags, or none. */
  lemma {:induction false} BuiltinDecides(catalog: Catalog, rows: seq<Row>, table: set<Row>, workspace: int, key: Key)
    requires Listing(rows, table, workspace) && forall r :: !CustomOf(table, workspace, key, r)
    ensures var meta := Resolved(catalog + Overlay(catalog, rows), key.0, key.1);
            && meta.excludesFromBalancer == (key in catalog && catalog[key].excludesFromBalancer)
            && meta.excludesFromReady == (key in catalog && catalog[key].excludesFromReady)
  {
    LastRowWins(catalog, rows, key);
    var i := LastOf(rows, key);
    if i >= 0 {
      assert rows[i] in rows;
      assert !CustomOf(table, workspace, key, rows[i]);
    }
    assert key == (key.0, key.1);
  }

  // ---- the map against the predicate ----

  /** A status that the map excludes is excluded by the predicate: for every table, key and order of ties. */
  lemma {:induction false} MapImpliesPredicate(catalog: Catalog, rows: seq<Row>, table: set<Row>, workspace: int,
                                               slug: string)
    requires Listing(rows, table, workspace) && MapExcluded(catalog, rows, slug)
    ensures PoolExcluded(catalog, table, workspace, slug)
  {
    LastRowWins(catalog, rows, (Balancer, slug));
    var i := LastOf(rows, (Balancer, slug));
    if i >= 0 {
      assert rows[i] in rows;
      if rows[i].kind == Custom {
        assert CustomOf(table, workspace, (Balancer, slug), rows[i]);
      }
    }
  }

  /**
   The two disagree exactly where a workspace's custom balancer status reuses the slug of an excluded
   builtin status and is not flagged itself: the predicate excludes it, the map does not.
   */
  lemma {:induction false} DisagreeExactly(catalog: Catalog, rows: seq<Row>, table: set<Row>, workspace: int,
                                           slug: string)
    requires Listing(rows, table, workspace) && UniqueRows(table)
    ensures PoolExcluded(catalog, table, workspace, slug) != MapExcluded(catalog, rows, slug) <==>
            BuiltinExcluded(catalog, slug)
            && exists r :: CustomOf(table, workspace, (Balancer, slug), r) && !r.excludesFromBalancer
  {
    var key := (Balancer, slug);
    if r :| CustomOf(table, workspace, key, r) {
      CustomDecides(catalog, rows, table, workspace, key, r);
      assert forall q :: CustomOf(table, workspace, key, q) ==> q == r;
    } else {
      BuiltinDecides(catalog, rows, table, workspace, key);
    }
  }

  /** Custom statuses that reuse no builtin slug make the two agree on every slug. */
  lemma {:induction false} OwnSlugsAgree(catalog: Catalog, rows: seq<Row>, table: set<Row>, workspace: int,
                                         slug: string)
    requires Listing(rows, table, workspace) && UniqueRows(table)
    requires forall key, r :: CustomOf(table, workspace, key, r) ==> key !in catalog
    ensures PoolExcluded(catalog, table, workspace, slug) <==> MapExcluded(catalog, rows, slug)
  {
    DisagreeExactly(catalog, rows, table, workspace, slug);
    assert forall r :: CustomOf(table, workspace, (Balancer, slug), r) ==> (Balancer, slug) !in catalog;
  }

  /** A slug without a row and without a builtin status is excluded by neither. */
  lemma {:induction false} UnknownIsIncluded(catalog: Catalog, rows: seq<Row>, table: set<Row>, workspace: int,
                                             slug: string)
    requires Listing(rows, table, workspace) && (Balancer, slug) !in catalog
    requires forall r :: r in table ==> KeyOf(r) != (Balancer, slug)
    ensures (Balancer, slug) !in catalog + Overlay(catalog, rows)
    ensures !PoolExcluded(catalog, table, workspace, slug) && !MapExcluded(catalog, rows, slug)
  {
    LastRowWins(catalog, rows, (Balancer, slug));
    assert forall j :: 0 <= j < |rows| ==> rows[j] in rows && KeyOf(rows[j]) != (Balancer, slug);
  }

  /** The map holds every builtin status, and beside them only statuses of the workspace or global builtin ones. */
  lemma {:induction false} MapHolds(catalog: Catalog, rows: seq<Row>, table: set<Row>, workspace: int, key: Key)
    requires Listing(rows, table, workspace)
    ensures key in catalog + Overlay(catalog, rows) <==>
            key in catalog || exists r :: r in table && KeyOf(r) == key
                                          && (r.workspace == Some(workspace)
                                            || (r.workspace.None? && r.kind == Builtin))
  {
    LastRowWins(catalog, rows, key);
    var i := LastOf(rows, key);
    if i >= 0 {
      assert rows[i] in rows;
    }
    if r :| r in table && KeyOf(r) == key
            && (r.workspace == Some(workspace) || (r.workspace.None? && r.kind == Builtin)) {
      assert r in rows;
    }
  }

  /** The shipped table excludes two balancer statuses, and they are the ones a custom row can contradict. */
  lemma {:induction false} ShippedExclusions(slug: string)
    ensures BuiltinExcluded(BUILTINS, slug) <==> slug == "not_in_balancer" || slug == "excluded"
  {
  }

  /**
   An unflagged custom status under either of these slugs is stored by itself, and map and predicate
   disagree on it.
   */
  lemma {:induction false} ShippedSlugReused(workspace: int, id: int, slug: string, name: string)
    requires slug == "not_in_balancer" || slug == "excluded"
    ensures var r := Row(id, Some(workspace), Balancer, slug, Custom, name, false, false);
            && Listing([r], {r}, workspace) && UniqueRows({r})
            && PoolExcluded(BUILTINS, {r}, workspace, slug) && !MapExcluded(BUILTINS, [r], slug)
  {
    var r := Row(id, Some(workspace), Balancer, slug, Custom, name, false, false);
    ShippedExclusions(slug);
    assert CustomOf({r}, workspace, (Balancer, slug), r);
    DisagreeExactly(BUILTINS, [r], {r}, workspace, slug);
  }
}
