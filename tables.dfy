/**
 * The two SQLite tables of the ledger as maps from row id to row, and what the
 * statements of the store compute over them: the scan order of a SELECT, the
 * sums the roll-up adds, the levels of the recursive common table expression
 * that orders the roll-up, and the name-keyed INSERT ... ON CONFLICT upsert.
 * The store classes of db_layer/database.py, database.py and models.py all
 * run on these definitions.
 */
module Tables {
  import opened Wrappers

  /** The message of the ValueError of upsert_category. */
  const ParentMissing := "Parent category does not exist in the database"

  /** The message of the ValueError of upsert_account. */
  const CategoryMissing := "Category does not exist in the database"

  /** What `cursor.fetchone()[0]` raises when no row has the id: `None[0]`. */
  const NoRow := "'NoneType' object is not subscriptable"

  /** A row of the `categories` table; its id is the key it is stored under. */
  datatype CategoryRow = CategoryRow(name: string, value: real, parentId: Option<nat>, description: string)

  /** The columns `name, value, category_id, remarks` of a row of the `accounts` table. */
  datatype AccountRow = AccountRow(name: string, value: real, categoryId: nat, remarks: Option<string>)

  // ---------------------------------------------------------------------------
  // Scan order: a SELECT without ORDER BY that filters on an unindexed column
  // (`WHERE parent_id = ?`, `WHERE category_id = ?`) returns rows in ascending
  // id order.
  // ---------------------------------------------------------------------------

  /** A least element of a non-empty set, found by taking elements out one at a time. */
  ghost function LeastOf(s: set<nat>): (m: nat)
    requires s != {}
    ensures m in s && forall x | x in s :: m <= x
    decreases s
  {
    var y :| y in s;
    if s == {y} then
      y
    else
      var m := LeastOf(s - {y});
      assert forall x | x in s && x != y :: x in s - {y};
      if y < m then y else m
  }

  /** The least id of a non-empty set. */
  function Least(s: set<nat>): (m: nat)
    requires s != {}
    ensures m in s && forall x | x in s :: m <= x
  {
    assert LeastOf(s) in s;
    var m :| m in s && forall x | x in s :: m <= x;
    m
  }

  /** The ids of `s` in ascending order: the order in which a table scan meets them. */
  function Ascending(s: set<nat>): (r: seq<nat>)
    ensures forall i | 0 <= i < |r| :: r[i] in s
    ensures forall x | x in s :: x in r
    ensures forall i, j | 0 <= i < j < |r| :: r[i] < r[j]
    decreases s
  {
    if s == {} then []
    else
      var m := Least(s);
      var rest := Ascending(s - {m});
      assert forall x | x in s && x != m :: x in rest;
      [m] + rest
  }

  /** A greatest element of a non-empty set, found as `LeastOf` is. */
  ghost function GreatestOf(s: set<nat>): (m: nat)
    requires s != {}
    ensures m in s && forall x | x in s :: x <= m
    decreases s
  {
    var y :| y in s;
    if s == {y} then
      y
    else
      var m := GreatestOf(s - {y});
      assert forall x | x in s && x != y :: x in s - {y};
      if y < m then m else y
  }

  /**
   * The rowid SQLite gives a row inserted without one: one more than the
   * largest rowid of the table, or 1 for an empty table.
   */
  function NextRowId(keys: set<nat>): (r: nat)
    ensures r > 0 && forall k | k in keys :: k < r
    ensures keys == {} ==> r == 1
    ensures keys != {} ==> r - 1 in keys
  {
    if keys == {} then
      1
    else
      assert GreatestOf(keys) in keys;
      var m :| m in keys && forall x | x in keys :: x <= m;
      m + 1
  }

  /** A scan meets every row once. */
  lemma {:induction false} CardinalityOfAscending(s: set<nat>)
    ensures |Ascending(s)| == |s|
    decreases s
  {
    if s != {} {
      CardinalityOfAscending(s - {Least(s)});
    }
  }

  // ---------------------------------------------------------------------------
  // The sums of calculate_category_value: `sum(...)` over the values a SELECT returns.
  // ---------------------------------------------------------------------------

  /** The sum of the values of the accounts `ids`, added left to right from 0. */
  function AccountsTotal(accts: map<nat, AccountRow>, ids: seq<nat>): real
    requires forall i | 0 <= i < |ids| :: ids[i] in accts
  {
    if ids == [] then 0.0 else AccountsTotal(accts, ids[..|ids| - 1]) + accts[ids[|ids| - 1]].value
  }

  /** The sum of the values of the categories `ids`, added left to right from 0. */
  function CategoriesTotal(cats: map<nat, CategoryRow>, ids: seq<nat>): real
    requires forall i | 0 <= i < |ids| :: ids[i] in cats
  {
    if ids == [] then 0.0 else CategoriesTotal(cats, ids[..|ids| - 1]) + cats[ids[|ids| - 1]].value
  }

  /** `SELECT ... FROM accounts WHERE category_id = c`: every account of `c`, disabled or not. */
  function AccountIdsOf(accts: map<nat, AccountRow>, c: nat): set<nat>
  {
    set a | a in accts && accts[a].categoryId == c
  }

  /** `SELECT ... FROM categories WHERE parent_id = c AND parent_id IS NOT NULL`. */
  function ChildIdsOf(cats: map<nat, CategoryRow>, c: nat): set<nat>
  {
    set k | k in cats && cats[k].parentId == Some(c)
  }

  /** What calculate_category_value adds for the accounts attached to `c`. */
  function OwnAccountsValue(accts: map<nat, AccountRow>, c: nat): real
  {
    AccountsTotal(accts, Ascending(AccountIdsOf(accts, c)))
  }

  /** What calculate_category_value adds for the child categories of `c`, at their current values. */
  function ChildCategoriesValue(cats: map<nat, CategoryRow>, c: nat): real
  {
    CategoriesTotal(cats, Ascending(ChildIdsOf(cats, c)))
  }

  lemma {:induction false} CategoriesTotalFrame(c1: map<nat, CategoryRow>, c2: map<nat, CategoryRow>, ids: seq<nat>)
    requires forall i | 0 <= i < |ids| :: ids[i] in c1 && ids[i] in c2 && c1[ids[i]].value == c2[ids[i]].value
    ensures CategoriesTotal(c1, ids) == CategoriesTotal(c2, ids)
  {
    if ids != [] {
      CategoriesTotalFrame(c1, c2, ids[..|ids| - 1]);
    }
  }

  // ---------------------------------------------------------------------------
  // Lookup and upsert by name. Both tables declare `name TEXT NOT NULL UNIQUE`
  // and write with `INSERT ... ON CONFLICT (name) DO UPDATE`.
  // ---------------------------------------------------------------------------

  function CategoryName(row: CategoryRow): string { row.name }

  function AccountName(row: AccountRow): string { row.name }

  /** The ids of the rows called `name`. */
  function RowsNamed<R>(t: map<nat, R>, nameOf: R -> string, name: string): set<nat>
  {
    set k | k in t && nameOf(t[k]) == name
  }

  /** `SELECT id ... WHERE name = ?` followed by `fetchone()`: the first row of the scan called `name`, if any. */
  function FindByName<R>(t: map<nat, R>, nameOf: R -> string, name: string): (r: Option<nat>)
    ensures r.None? <==> forall k | k in t :: nameOf(t[k]) != name
    ensures r.Some? ==> r.value in t && nameOf(t[r.value]) == name
    ensures r.Some? ==> forall k | k in t && nameOf(t[k]) == name :: r.value <= k
  {
    var matches := RowsNamed(t, nameOf, name);
    assert forall k | k in t && nameOf(t[k]) == name :: k in matches;
    if matches == {} then None else Some(Least(matches))
  }

  /** The names in the categories table. */
  function CategoryNames(cats: map<nat, CategoryRow>): set<string>
  {
    set c | c in cats :: cats[c].name
  }

  /** The UNIQUE constraint on `name`. */
  ghost predicate NamesUnique<R>(t: map<nat, R>, nameOf: R -> string)
  {
    forall a, b | a in t && b in t && nameOf(t[a]) == nameOf(t[b]) :: a == b
  }

  /** Under the UNIQUE constraint the lookup of a row's own name finds that row. */
  lemma FindOwnName<R>(t: map<nat, R>, nameOf: R -> string, k: nat)
    requires NamesUnique(t, nameOf) && k in t
    ensures FindByName(t, nameOf, nameOf(t[k])) == Some(k)
  {
  }

  /**
   * `INSERT INTO ... VALUES (...) ON CONFLICT (name) DO UPDATE SET <every other
   * column> = excluded.<column>`: the first row called like `row` takes all of
   * `row`'s columns and keeps its id; without such a row, `row` is inserted
   * under the fresh id.
   */
  function UpsertByName<R>(t: map<nat, R>, nameOf: R -> string, row: R, freshId: nat): (r: map<nat, R>)
    requires freshId !in t
    ensures forall k | k in t && nameOf(t[k]) != nameOf(row) :: k in r && r[k] == t[k]
    ensures forall k | k in r :: r[k] == row || (k in t && r[k] == t[k])
    ensures FindByName(t, nameOf, nameOf(row)).Some? ==> r.Keys == t.Keys && |r| == |t|
    ensures FindByName(t, nameOf, nameOf(row)).None? ==> r.Keys == t.Keys + {freshId} && |r| == |t| + 1
    ensures FindByName(r, nameOf, nameOf(row)).Some? && r[FindByName(r, nameOf, nameOf(row)).value] == row
  {
    match FindByName(t, nameOf, nameOf(row))
    case Some(k) =>
      StoredUnder(t, nameOf, t[k := row], nameOf(row), k);
      assert t[k := row].Keys == t.Keys;
      t[k := row]
    case None =>
      StoredUnder(t, nameOf, t[freshId := row], nameOf(row), freshId);
      t[freshId := row]
  }

  /** A map kept beside the table, keyed by its ids, gains a key exactly where the upsert inserts a row. */
  lemma UpsertSideKeys<R, V>(t: map<nat, R>, nameOf: R -> string, row: R, freshId: nat, side: map<nat, V>, v: V)
    requires freshId !in t && side.Keys == t.Keys
    ensures (if FindByName(t, nameOf, nameOf(row)).None? then side[freshId := v] else side).Keys == UpsertByName(t, nameOf, row, freshId).Keys
  {
  }

  /** After `k` took a row called `name`, the lookup of `name` finds `k` when `k` comes before every other row of that name. */
  lemma StoredUnder<R>(t: map<nat, R>, nameOf: R -> string, r: map<nat, R>, name: string, k: nat)
    requires k in r && nameOf(r[k]) == name
    requires forall j | j in r && j != k :: j in t && r[j] == t[j]
    requires forall j | j in t && j != k && nameOf(t[j]) == name :: k <= j
    ensures FindByName(r, nameOf, name) == Some(k)
  {
  }

  /** The upsert keeps the UNIQUE constraint. */
  lemma UpsertKeepsNamesUnique<R>(t: map<nat, R>, nameOf: R -> string, row: R, freshId: nat)
    requires freshId !in t && NamesUnique(t, nameOf)
    ensures NamesUnique(UpsertByName(t, nameOf, row, freshId), nameOf)
  {
    var r := UpsertByName(t, nameOf, row, freshId);
    var k := FindByName(r, nameOf, nameOf(row)).value;
    forall a, b | a in r && b in r && nameOf(r[a]) == nameOf(r[b])
      ensures a == b
    {
      if nameOf(r[a]) == nameOf(row) {
        assert a == k && b == k;
      }
    }
  }

  /** Upserting the same row again changes nothing, whatever fresh id the second insert would use. */
  lemma UpsertIdempotent<R>(t: map<nat, R>, nameOf: R -> string, row: R, freshId: nat, freshId2: nat)
    requires freshId !in t
    requires freshId2 !in UpsertByName(t, nameOf, row, freshId)
    ensures UpsertByName(UpsertByName(t, nameOf, row, freshId), nameOf, row, freshId2) == UpsertByName(t, nameOf, row, freshId)
  {
  }

  /**
   * Listing the name of every category, one per row in id order, lists each
   * name of the table once: under the UNIQUE constraint `SELECT DISTINCT name`
   * drops no row.
   */
  lemma ScannedNames(cats: map<nat, CategoryRow>, names: seq<string>)
    requires NamesUnique(cats, CategoryName)
    requires |names| == |Ascending(cats.Keys)|
    requires forall k | 0 <= k < |names| :: names[k] == cats[Ascending(cats.Keys)[k]].name
    ensures |names| == |cats|
    ensures forall i, j | 0 <= i < j < |names| :: names[i] != names[j]
    ensures forall n :: n in names <==> n in CategoryNames(cats)
  {
    var ids := Ascending(cats.Keys);
    forall n | n in CategoryNames(cats)
      ensures n in names
    {
      var c :| c in cats && cats[c].name == n;
      var k :| 0 <= k < |ids| && ids[k] == c;
      assert names[k] == n;
    }
    forall i, j | 0 <= i < j < |names|
      ensures names[i] != names[j]
    {
      assert ids[i] < ids[j];
      assert CategoryName(cats[ids[i]]) == names[i] && CategoryName(cats[ids[j]]) == names[j];
    }
    CardinalityOfAscending(cats.Keys);
    assert |cats.Keys| == |cats|;
  }
}
