/**
 * calculate_every_category: the recursive common table expression that lists
 * the categories reachable from a root by depth, the visit of each of them
 * deepest first, and the state the visit leaves behind.
 */
module Rollup {
  import opened Wrappers
  import opened Tables

  // ---------------------------------------------------------------------------
  // The recursive CTE `category_tree`: depth 0 are the roots, depth k + 1 the
  // categories whose parent has depth k.
  // ---------------------------------------------------------------------------

  /** The anchor of the CTE: `WHERE parent_id IS NULL`. */
  function Roots(cats: map<nat, CategoryRow>): set<nat>
  {
    set c | c in cats && cats[c].parentId == None
  }

  /** The recursive step of the CTE: `JOIN category_tree ct ON c.parent_id = ct.id`. */
  function ChildrenOfLevel(cats: map<nat, CategoryRow>, level: set<nat>): set<nat>
  {
    set c | c in cats && cats[c].parentId.Some? && cats[c].parentId.value in level
  }

  /** The categories the CTE lists with depth `k`. */
  function Level(cats: map<nat, CategoryRow>, k: nat): set<nat>
  {
    if k == 0 then Roots(cats) else ChildrenOfLevel(cats, Level(cats, k - 1))
  }

  /** The categories of depth below `k`. */
  function Reached(cats: map<nat, CategoryRow>, k: nat): set<nat>
  {
    if k == 0 then {} else Reached(cats, k - 1) + Level(cats, k - 1)
  }

  /** `c` appears in the CTE at all: its chain of parents ends at a root. */
  ghost predicate Reachable(cats: map<nat, CategoryRow>, c: nat)
  {
    exists k: nat :: c in Level(cats, k)
  }

  /** The depth the CTE gives a reachable category (0 for the others, which it never lists). */
  ghost function Depth(cats: map<nat, CategoryRow>, c: nat): nat
  {
    if Reachable(cats, c) then var k: nat :| c in Level(cats, k); k else 0
  }

  /** A category has at most one depth: the levels of the CTE are pairwise disjoint. */
  lemma {:induction false} LevelsDisjoint(cats: map<nat, CategoryRow>, i: nat, j: nat)
    requires i < j
    ensures Level(cats, i) !! Level(cats, j)
  {
    if i > 0 {
      LevelsDisjoint(cats, i - 1, j - 1);
      forall c | c in Level(cats, i)
        ensures c !in Level(cats, j)
      {
        assert cats[c].parentId.value in Level(cats, i - 1);
      }
    }
  }

  lemma DepthOfLevel(cats: map<nat, CategoryRow>, c: nat, k: nat)
    requires c in Level(cats, k)
    ensures Reachable(cats, c) && Depth(cats, c) == k
  {
    var d := Depth(cats, c);
    if d < k {
      LevelsDisjoint(cats, d, k);
    } else if k < d {
      LevelsDisjoint(cats, k, d);
    }
  }

  /** A child of a reachable category is reachable, one level deeper. */
  lemma ChildDepth(cats: map<nat, CategoryRow>, c: nat, x: nat)
    requires Reachable(cats, c) && x in ChildIdsOf(cats, c)
    ensures Reachable(cats, x) && Depth(cats, x) == Depth(cats, c) + 1
  {
    var k := Depth(cats, c);
    assert x in Level(cats, k + 1);
    DepthOfLevel(cats, x, k + 1);
  }

  /** A level is empty only when every deeper level is. */
  lemma {:induction false} LevelNonemptyBelow(cats: map<nat, CategoryRow>, i: nat, j: nat)
    requires i <= j && Level(cats, j) != {}
    ensures Level(cats, i) != {}
    decreases j - i
  {
    if i < j {
      var c :| c in Level(cats, j);
      assert cats[c].parentId.value in Level(cats, j - 1);
      LevelNonemptyBelow(cats, i, j - 1);
    }
  }

  lemma {:induction false} ReachedIsLevelsBelow(cats: map<nat, CategoryRow>, k: nat)
    ensures Reached(cats, k) <= cats.Keys
    ensures forall c | c in Reached(cats, k) :: exists j: nat :: j < k && c in Level(cats, j)
    ensures forall c, j: nat | j < k && c in Level(cats, j) :: c in Reached(cats, k)
    ensures Reached(cats, k) !! Level(cats, k)
  {
    if k > 0 {
      ReachedIsLevelsBelow(cats, k - 1);
      forall c | c in Reached(cats, k)
        ensures exists j: nat :: j < k && c in Level(cats, j)
      {
        if c in Level(cats, k - 1) {
          assert k - 1 < k;
        } else {
          var j: nat :| j < k - 1 && c in Level(cats, j);
          assert j < k;
        }
      }
      assert forall c | c in Reached(cats, k) :: exists j: nat :: j < k && c in Level(cats, j);
      forall c, j: nat | j < k && c in Level(cats, j)
        ensures c in Reached(cats, k)
      {
        if j < k - 1 {
          assert exists j': nat :: j' < k - 1 && c in Level(cats, j');
          assert c in Reached(cats, k - 1);
        }
      }
      forall c | c in Reached(cats, k)
        ensures c !in Level(cats, k)
      {
        var j: nat :| j < k && c in Level(cats, j);
        LevelsDisjoint(cats, j, k);
      }
    } else {
      assert Reached(cats, k) == {};
    }
  }

  lemma {:induction false} ReachedSize(cats: map<nat, CategoryRow>, k: nat)
    requires k > 0 ==> Level(cats, k - 1) != {}
    ensures |Reached(cats, k)| >= k
  {
    if k > 0 {
      if k > 1 {
        LevelNonemptyBelow(cats, k - 2, k - 1);
      }
      ReachedSize(cats, k - 1);
      ReachedIsLevelsBelow(cats, k - 1);
      var c :| c in Level(cats, k - 1);
      assert Reached(cats, k - 1) < Reached(cats, k);
    }
  }

  lemma SubsetSize(a: set<nat>, b: set<nat>)
    requires a <= b
    ensures |a| <= |b|
  {
    assert b == a + (b - a);
  }

  /** No category is deeper than the number of categories: the CTE terminates. */
  lemma DepthBound(cats: map<nat, CategoryRow>, k: nat)
    requires |cats.Keys| <= k
    ensures Level(cats, k) == {}
  {
    if Level(cats, k) != {} {
      ReachedSize(cats, k + 1);
      ReachedIsLevelsBelow(cats, k + 1);
      SubsetSize(Reached(cats, k + 1), cats.Keys);
    }
  }

  /** Once a level is empty, the categories reachable from a root are those of the levels above it. */
  lemma ReachableWithin(cats: map<nat, CategoryRow>, k: nat)
    requires Level(cats, k) == {}
    ensures forall c :: Reachable(cats, c) <==> c in Reached(cats, k)
  {
    ReachedIsLevelsBelow(cats, k);
    forall c | Reachable(cats, c)
      ensures c in Reached(cats, k)
    {
      var j: nat :| c in Level(cats, j);
      if k <= j {
        LevelNonemptyBelow(cats, k, j);
      }
    }
  }

  /** No category is listed twice. */
  ghost predicate Distinct(ids: seq<nat>)
  {
    forall i, j | 0 <= i < j < |ids| :: ids[i] != ids[j]
  }

  /** No category is listed at or after one of its children: children come first. */
  ghost predicate ChildrenFirst(cats: map<nat, CategoryRow>, ids: seq<nat>)
  {
    forall i, j | 0 <= j <= i < |ids| && ids[i] in cats :: cats[ids[i]].parentId != Some(ids[j])
  }

  /** `ORDER BY depth DESC`: no category is listed before a deeper one. */
  ghost predicate DepthDescending(cats: map<nat, CategoryRow>, ids: seq<nat>)
  {
    forall i, j | 0 <= i < j < |ids| :: Depth(cats, ids[i]) >= Depth(cats, ids[j])
  }

  /**
   * `SELECT id FROM category_tree ORDER BY depth DESC`: every category reachable
   * from a root exactly once, sorted by depth, deepest first, and so each after
   * all of its children (a child is one level deeper than its parent). The
   * order among categories of equal depth is left open.
   */
  ghost predicate DepthOrdered(cats: map<nat, CategoryRow>, ids: seq<nat>)
  {
    && Distinct(ids)
    && (forall c :: c in ids <==> c in cats && Reachable(cats, c))
    && DepthDescending(cats, ids)
    && ChildrenFirst(cats, ids)
  }

  /** The invariant of the CTE evaluation after the levels above `k` were listed. */
  ghost predicate ListedAbove(cats: map<nat, CategoryRow>, ids: seq<nat>, k: nat)
  {
    && (forall c :: c in ids <==> c in Reached(cats, k))
    && Distinct(ids)
    && (forall c | c in ids :: Depth(cats, c) < k)
    && DepthDescending(cats, ids)
    && ChildrenFirst(cats, ids)
  }

  /** Children-first is kept by putting in front rows that are nobody's parent in the result. */
  lemma ChildrenFirstConcat(cats: map<nat, CategoryRow>, a: seq<nat>, b: seq<nat>)
    requires ChildrenFirst(cats, b)
    requires forall x, y | y in a && (x in a || x in b) && x in cats :: cats[x].parentId != Some(y)
    ensures ChildrenFirst(cats, a + b)
  {
    var s := a + b;
    forall i, j | 0 <= j <= i < |s| && s[i] in cats
      ensures cats[s[i]].parentId != Some(s[j])
    {
      if j < |a| {
        assert s[j] in a;
        if i < |a| {
          assert s[i] in a;
        } else {
          assert s[i] == b[i - |a|];
        }
      } else {
        assert s[i] == b[i - |a|] && s[j] == b[j - |a|];
      }
    }
  }

  /** Nothing at depth `k` or above it is a child of a category at depth `k`. */
  lemma NoParentInLevel(cats: map<nat, CategoryRow>, ids: seq<nat>, k: nat)
    requires ListedAbove(cats, ids, k)
    ensures forall x, y | y in Ascending(Level(cats, k)) && (x in Ascending(Level(cats, k)) || x in ids) && x in cats :: cats[x].parentId != Some(y)
  {
    ReachedIsLevelsBelow(cats, k + 1);
    var layer := Ascending(Level(cats, k));
    forall x, y | y in layer && (x in layer || x in ids) && x in cats
      ensures cats[x].parentId != Some(y)
    {
      assert x in Reached(cats, k + 1);
    }
  }

  lemma DistinctConcat(a: seq<nat>, b: seq<nat>)
    requires Distinct(a) && Distinct(b) && forall x | x in a :: x !in b
    ensures Distinct(a + b)
  {
    var s := a + b;
    forall i, j | 0 <= i < j < |s|
      ensures s[i] != s[j]
    {
      if i < |a| && |a| <= j {
        assert s[i] in a && s[j] == b[j - |a|];
      } else if |a| <= i {
        assert s[i] == b[i - |a|] && s[j] == b[j - |a|];
      }
    }
  }

  /** Putting a level of depth `k` in front of shallower categories keeps the depth order. */
  lemma DepthDescendingConcat(cats: map<nat, CategoryRow>, a: seq<nat>, b: seq<nat>, k: nat)
    requires forall c | c in a :: Depth(cats, c) == k
    requires forall c | c in b :: Depth(cats, c) < k
    requires DepthDescending(cats, b)
    ensures DepthDescending(cats, a + b)
  {
    var s := a + b;
    forall i, j | 0 <= i < j < |s|
      ensures Depth(cats, s[i]) >= Depth(cats, s[j])
    {
      if j < |a| {
        assert s[i] in a && s[j] in a;
      } else if i < |a| {
        assert s[i] in a && s[j] == b[j - |a|];
      } else {
        assert s[i] == b[i - |a|] && s[j] == b[j - |a|];
      }
    }
  }

  lemma PrependLevel(cats: map<nat, CategoryRow>, ids: seq<nat>, k: nat)
    requires ListedAbove(cats, ids, k)
    ensures ListedAbove(cats, Ascending(Level(cats, k)) + ids, k + 1)
  {
    ReachedIsLevelsBelow(cats, k);
    var layer := Ascending(Level(cats, k));
    forall c | c in layer
      ensures Depth(cats, c) == k
    {
      DepthOfLevel(cats, c, k);
    }
    DepthDescendingConcat(cats, layer, ids, k);
    DistinctConcat(layer, ids);
    NoParentInLevel(cats, ids, k);
    ChildrenFirstConcat(cats, layer, ids);
    assert forall c :: c in layer + ids <==> c in layer || c in ids;
  }

  /** The ids listed once the levels above `k` have been put in front, one level at a time. */
  ghost function Above(cats: map<nat, CategoryRow>, k: nat): seq<nat>
  {
    if k == 0 then [] else Ascending(Level(cats, k - 1)) + Above(cats, k - 1)
  }

  /** The levels above `k`, deepest in front, keep the invariant of the CTE evaluation. */
  lemma {:induction false} AboveListed(cats: map<nat, CategoryRow>, k: nat)
    ensures ListedAbove(cats, Above(cats, k), k)
  {
    if k > 0 {
      AboveListed(cats, k - 1);
      PrependLevel(cats, Above(cats, k - 1), k - 1);
    }
  }

  /** Once a level is empty, the categories listed so far are the whole CTE, in order. */
  lemma AboveOrdered(cats: map<nat, CategoryRow>, k: nat)
    requires Level(cats, k) == {}
    ensures DepthOrdered(cats, Above(cats, k))
  {
    AboveListed(cats, k);
    ReachedIsLevelsBelow(cats, k);
    ReachableWithin(cats, k);
  }

  /** A non-empty level has a depth below the number of categories: the CTE terminates. */
  lemma LevelBelowSize(cats: map<nat, CategoryRow>, k: nat)
    requires Level(cats, k) != {}
    ensures k < |cats.Keys|
  {
    if |cats.Keys| <= k {
      DepthBound(cats, k);
    }
  }

  /**
   * The recursive CTE of calculate_every_category, evaluated level by level
   * from the roots, with the rows of each new level put in front.
   */
  method CategoryIdsByDepth(cats: map<nat, CategoryRow>) returns (ids: seq<nat>)
    ensures DepthOrdered(cats, ids)
  {
    var level := Roots(cats);
    ghost var k: nat := 0;
    ids := [];
    while level != {}
      invariant level == Level(cats, k)
      invariant ids == Above(cats, k)
      decreases |cats.Keys| - k
    {
      LevelBelowSize(cats, k);
      ids := Ascending(level) + ids;
      level := ChildrenOfLevel(cats, level);
      k := k + 1;
    }
    AboveOrdered(cats, k);
  }

  // ---------------------------------------------------------------------------
  // The roll-up: the state calculate_every_category leaves behind.
  // ---------------------------------------------------------------------------

  /**
   * Every category reachable from a root holds the sum of its accounts plus the
   * sum of its child categories; every other category holds 0.
   */
  ghost predicate RolledUp(cats: map<nat, CategoryRow>, accts: map<nat, AccountRow>)
  {
    forall c | c in cats ::
      cats[c].value == if Reachable(cats, c) then OwnAccountsValue(accts, c) + ChildCategoriesValue(cats, c) else 0.0
  }

  /** The two tables differ at most in the `value` column. */
  ghost predicate SameShape(c1: map<nat, CategoryRow>, c2: map<nat, CategoryRow>)
  {
    && c1.Keys == c2.Keys
    && forall c | c in c1 ::
         c1[c].name == c2[c].name && c1[c].parentId == c2[c].parentId && c1[c].description == c2[c].description
  }

  /** Every value set to 0: `UPDATE categories SET value = 0`. */
  function ResetValues(cats: map<nat, CategoryRow>): (r: map<nat, CategoryRow>)
    ensures SameShape(cats, r)
    ensures forall c | c in r :: r[c].value == 0.0
  {
    map c | c in cats :: cats[c].(value := 0.0)
  }

  /** Resetting forgets the values: two tables of the same shape reset to the same table. */
  lemma ResetSameShape(c1: map<nat, CategoryRow>, c2: map<nat, CategoryRow>)
    requires SameShape(c1, c2)
    ensures ResetValues(c1) == ResetValues(c2)
  {
    forall c | c in c1
      ensures ResetValues(c1)[c] == ResetValues(c2)[c]
    {
    }
  }

  lemma {:induction false} SameShapeLevels(c1: map<nat, CategoryRow>, c2: map<nat, CategoryRow>, k: nat)
    requires SameShape(c1, c2)
    ensures Level(c1, k) == Level(c2, k)
  {
    if k > 0 {
      SameShapeLevels(c1, c2, k - 1);
    }
  }

  /** The CTE, the depths and the parent links read only the columns a value update leaves alone. */
  lemma SameShapeStructure(c1: map<nat, CategoryRow>, c2: map<nat, CategoryRow>)
    requires SameShape(c1, c2)
    ensures forall c :: Reachable(c1, c) <==> Reachable(c2, c)
    ensures forall c :: ChildIdsOf(c1, c) == ChildIdsOf(c2, c)
  {
    forall k: nat
      ensures Level(c1, k) == Level(c2, k)
    {
      SameShapeLevels(c1, c2, k);
    }
  }

  /** A change of the `value` column keeps the UNIQUE constraint on `name`. */
  lemma SameShapeNamesUnique(c1: map<nat, CategoryRow>, c2: map<nat, CategoryRow>)
    requires SameShape(c1, c2) && NamesUnique(c1, CategoryName)
    ensures NamesUnique(c2, CategoryName)
  {
  }

  /**
   * Every `parent_id` and `category_id` names a category. SQLite does not
   * enforce the FOREIGN KEY clauses by default; the upserts keep them.
   */
  ghost predicate ForeignKeysHold(cats: map<nat, CategoryRow>, accts: map<nat, AccountRow>)
  {
    && (forall c | c in cats && cats[c].parentId.Some? :: cats[c].parentId.value in cats)
    && (forall a | a in accts :: accts[a].categoryId in cats)
  }

  /** A change of the `value` column keeps the foreign keys. */
  lemma SameShapeForeignKeys(c1: map<nat, CategoryRow>, c2: map<nat, CategoryRow>, accts: map<nat, AccountRow>)
    requires SameShape(c1, c2) && ForeignKeysHold(c1, accts)
    ensures ForeignKeysHold(c2, accts)
  {
  }

  /** Upserting a category whose parent exists keeps the foreign keys. */
  lemma UpsertCategoryForeignKeys(cats: map<nat, CategoryRow>, accts: map<nat, AccountRow>, row: CategoryRow, freshId: nat)
    requires freshId !in cats && ForeignKeysHold(cats, accts)
    requires row.parentId.Some? ==> row.parentId.value in cats
    ensures ForeignKeysHold(UpsertByName(cats, CategoryName, row, freshId), accts)
  {
    var r := UpsertByName(cats, CategoryName, row, freshId);
    assert cats.Keys <= r.Keys;
  }

  /** Upserting an account whose category exists keeps the foreign keys. */
  lemma UpsertAccountForeignKeys(cats: map<nat, CategoryRow>, accts: map<nat, AccountRow>, row: AccountRow, freshId: nat)
    requires freshId !in accts
    ensures ForeignKeysHold(cats, accts) && row.categoryId in cats ==> ForeignKeysHold(cats, UpsertByName(accts, AccountName, row, freshId))
  {
  }

  /** The part of the roll-up done after the categories `done` were visited, in that order. */
  ghost predicate PartlyRolledUp(cats: map<nat, CategoryRow>, accts: map<nat, AccountRow>, done: seq<nat>)
  {
    && (forall c | c in cats && c !in done :: cats[c].value == 0.0)
    && (forall c | c in done :: c in cats && cats[c].value == OwnAccountsValue(accts, c) + ChildCategoriesValue(cats, c))
  }

  /** Updating the value of a category that is not a child of `d` leaves the children's sum of `d` alone. */
  lemma ChildSumUnchanged(cats: map<nat, CategoryRow>, c: nat, row: CategoryRow, d: nat)
    requires c in cats && cats[c].parentId != Some(d) && row.parentId == cats[c].parentId
    ensures ChildIdsOf(cats[c := row], d) == ChildIdsOf(cats, d)
    ensures ChildCategoriesValue(cats[c := row], d) == ChildCategoriesValue(cats, d)
  {
    var cats' := cats[c := row];
    assert ChildIdsOf(cats', d) == ChildIdsOf(cats, d);
    CategoriesTotalFrame(cats, cats', Ascending(ChildIdsOf(cats, d)));
  }

  /**
   * `UPDATE categories SET value = <sum of its accounts> + <sum of its
   * children> WHERE id = c`, the children's values read as they stand.
   */
  function Visit(cats: map<nat, CategoryRow>, accts: map<nat, AccountRow>, c: nat): map<nat, CategoryRow>
    requires c in cats
  {
    cats[c := cats[c].(value := cats[c].value + OwnAccountsValue(accts, c) + ChildCategoriesValue(cats, c))]
  }

  /** Visiting `c` extends the roll-up when `c` is the child of no category visited so far, itself included. */
  lemma VisitExtends(cats: map<nat, CategoryRow>, accts: map<nat, AccountRow>, done: seq<nat>, c: nat)
    requires PartlyRolledUp(cats, accts, done)
    requires c in cats && cats[c].value == 0.0
    requires forall d | d in done + [c] :: cats[c].parentId != Some(d)
    ensures PartlyRolledUp(Visit(cats, accts, c), accts, done + [c])
  {
    var row := cats[c].(value := cats[c].value + OwnAccountsValue(accts, c) + ChildCategoriesValue(cats, c));
    var cats' := Visit(cats, accts, c);
    assert cats' == cats[c := row];
    forall d | d in done + [c]
      ensures d in cats' && cats'[d].value == OwnAccountsValue(accts, d) + ChildCategoriesValue(cats', d)
    {
      ChildSumUnchanged(cats, c, row, d);
    }
    forall d | d in cats' && d !in done + [c]
      ensures cats'[d].value == 0.0
    {
    }
  }

  /**
   * One step of the roll-up loop: the next category still holds the reset 0,
   * and once it holds its own accounts plus its children, every category
   * visited before it still holds its own accounts plus its children, because
   * a category is never listed after one of its children.
   */
  lemma RollupStep(shape: map<nat, CategoryRow>, cats: map<nat, CategoryRow>, accts: map<nat, AccountRow>, ids: seq<nat>, i: nat)
    requires DepthOrdered(shape, ids) && SameShape(shape, cats) && i < |ids|
    requires PartlyRolledUp(cats, accts, ids[..i])
    ensures ids[i] in cats && cats[ids[i]].value == 0.0
    ensures PartlyRolledUp(Visit(cats, accts, ids[i]), accts, ids[..i + 1])
  {
    var c := ids[i];
    assert c in ids;
    assert c !in ids[..i];
    forall d | d in ids[..i + 1]
      ensures shape[c].parentId != Some(d)
    {
      var j :| 0 <= j <= i && ids[j] == d;
    }
    assert ids[..i + 1] == ids[..i] + [c];
    assert forall d | d in ids[..i] + [c] :: cats[c].parentId != Some(d);
    VisitExtends(cats, accts, ids[..i], c);
  }

  /** When every listed category has been visited, the table is rolled up. */
  lemma VisitedAll(shape: map<nat, CategoryRow>, cats: map<nat, CategoryRow>, accts: map<nat, AccountRow>, ids: seq<nat>)
    requires DepthOrdered(shape, ids) && SameShape(shape, cats)
    requires PartlyRolledUp(cats, accts, ids)
    ensures RolledUp(cats, accts)
  {
    SameShapeStructure(shape, cats);
  }

  /**
   * One category at depth `k`: when two rolled-up tables of the same shape
   * agree one level deeper, they agree on it, because its value is its
   * accounts plus its children.
   */
  lemma RollupAgreesAt(c1: map<nat, CategoryRow>, c2: map<nat, CategoryRow>, accts: map<nat, AccountRow>, k: nat, c: nat)
    requires SameShape(c1, c2) && RolledUp(c1, accts) && RolledUp(c2, accts)
    requires c in Level(c1, k)
    requires forall d | d in Level(c1, k + 1) :: d in c1 && c1[d].value == c2[d].value
    ensures c in c1 && c1[c].value == c2[c].value
  {
    SameShapeStructure(c1, c2);
    DepthOfLevel(c1, c, k);
    var kids := Ascending(ChildIdsOf(c1, c));
    forall i | 0 <= i < |kids|
      ensures kids[i] in c1 && kids[i] in c2 && c1[kids[i]].value == c2[kids[i]].value
    {
      assert kids[i] in Level(c1, k + 1);
    }
    CategoriesTotalFrame(c1, c2, kids);
  }

  /**
   * Downward induction over the levels: two rolled-up tables of the same shape
   * agree on every category at depth `k` or deeper.
   */
  lemma {:induction false} RollupAgreesFrom(c1: map<nat, CategoryRow>, c2: map<nat, CategoryRow>, accts: map<nat, AccountRow>, k: nat)
    requires SameShape(c1, c2) && RolledUp(c1, accts) && RolledUp(c2, accts)
    ensures forall j: nat, c | k <= j && c in Level(c1, j) :: c in c1 && c1[c].value == c2[c].value
    decreases |c1.Keys| - k
  {
    if k < |c1.Keys| {
      RollupAgreesFrom(c1, c2, accts, k + 1);
      forall j: nat, c | k <= j && c in Level(c1, j)
        ensures c in c1 && c1[c].value == c2[c].value
      {
        if j == k {
          RollupAgreesAt(c1, c2, accts, k, c);
        }
      }
    } else {
      forall j: nat | k <= j
        ensures Level(c1, j) == {}
      {
        DepthBound(c1, j);
      }
    }
  }

  /**
   * A table of a given shape has exactly one rolled-up state: the values the
   * roll-up writes depend only on the accounts and on the parent links.
   */
  lemma RollupIsUnique(c1: map<nat, CategoryRow>, c2: map<nat, CategoryRow>, accts: map<nat, AccountRow>)
    requires SameShape(c1, c2) && RolledUp(c1, accts) && RolledUp(c2, accts)
    ensures c1 == c2
  {
    RollupAgreesFrom(c1, c2, accts, 0);
    SameShapeStructure(c1, c2);
    forall c | c in c1
      ensures c1[c] == c2[c]
    {
      if Reachable(c1, c) {
        var k: nat :| c in Level(c1, k);
      }
    }
  }
}
