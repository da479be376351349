/**
 * database.py: the earlier copy of the SQLite store. Its `accounts` table has
 * no `is_disabled` column, and its tree reader is called read_categories;
 * otherwise it upserts and rolls up exactly as db_layer/database.py does.
 */
module Database {
  import opened Wrappers
  import opened Tables
  import opened Rollup
  import opened Trees

  class SqliteDb {
    /** The `categories` table, by id. */
    var categories: map<nat, CategoryRow>
    /** The `accounts` table, by id. */
    var accounts: map<nat, AccountRow>

    /** What the schema enforces: `name ... UNIQUE` in both tables. */
    ghost predicate Valid()
      reads this
    {
      NamesUnique(categories, CategoryName) && NamesUnique(accounts, AccountName)
    }

    /** Opening a database file whose tables hold these rows. */
    constructor (categories0: map<nat, CategoryRow>, accounts0: map<nat, AccountRow>)
      requires NamesUnique(categories0, CategoryName) && NamesUnique(accounts0, AccountName)
      ensures Valid()
      ensures categories == categories0 && accounts == accounts0
    {
      categories := categories0;
      accounts := accounts0;
    }

    /**
     * calculate_category_value(id): the stored value plus the values of the
     * accounts of `id` plus the values of its child categories, written back;
     * an id with no row fails at `fetchone()[0]`.
     */
    method CalculateCategoryValue(id: nat) returns (o: Outcome)
      modifies this
      ensures id !in old(categories) ==> o == Fail(TypeError(NoRow)) && categories == old(categories)
      ensures id in old(categories) ==> o == Pass && categories == Visit(old(categories), accounts, id)
      ensures accounts == old(accounts)
    {
      if id !in categories {
        return Fail(TypeError(NoRow));
      }
      var totalValue := categories[id].value + OwnAccountsValue(accounts, id);
      totalValue := totalValue + ChildCategoriesValue(categories, id);
      categories := categories[id := categories[id].(value := totalValue)];
      return Pass;
    }

    /**
     * calculate_every_category(): zero every value, then visit the categories
     * reachable from a root, deepest first; the table ends rolled up, and a
     * second run changes nothing.
     */
    method CalculateEveryCategory()
      modifies this
      ensures SameShape(old(categories), categories)
      ensures RolledUp(categories, accounts)
      ensures RolledUp(old(categories), accounts) ==> categories == old(categories)
      ensures accounts == old(accounts)
    {
      categories := ResetValues(categories);
      var categoryIds := CategoryIdsByDepth(categories);
      ghost var shape := categories;
      for i := 0 to |categoryIds|
        invariant SameShape(shape, categories)
        invariant PartlyRolledUp(categories, accounts, categoryIds[..i])
        invariant accounts == old(accounts)
      {
        RollupStep(shape, categories, accounts, categoryIds, i);
        var _ := CalculateCategoryValue(categoryIds[i]);
      }
      assert categoryIds[..|categoryIds|] == categoryIds;
      VisitedAll(shape, categories, accounts, categoryIds);
      if RolledUp(old(categories), accounts) {
        RollupIsUnique(old(categories), categories, accounts);
      }
    }

    /**
     * upsert_category: a parent is looked up by name and must exist; the row
     * is inserted, or the row of the same name has its value, parent and
     * description overwritten; then every category is recomputed.
     */
    method UpsertCategory(name: string, value: real, parentName: Option<string>, description: string) returns (o: Outcome)
      requires Valid()
      modifies this
      ensures Valid()
      ensures parentName.Some? && FindByName(old(categories), CategoryName, parentName.value).None? ==>
        o == Fail(ValueError(ParentMissing)) && categories == old(categories)
      ensures parentName.None? ==>
        o == Pass && SameShape(UpsertByName(old(categories), CategoryName, CategoryRow(name, value, None, description), NextRowId(old(categories).Keys)), categories)
      ensures parentName.Some? && FindByName(old(categories), CategoryName, parentName.value).Some? ==>
        var parentId := FindByName(old(categories), CategoryName, parentName.value).value;
        o == Pass && SameShape(UpsertByName(old(categories), CategoryName, CategoryRow(name, value, Some(parentId), description), NextRowId(old(categories).Keys)), categories)
      ensures o == Pass ==> RolledUp(categories, accounts)
      ensures old(ForeignKeysHold(categories, accounts)) ==> ForeignKeysHold(categories, accounts)
      ensures accounts == old(accounts)
    {
      var parentId: Option<nat> := None;
      if parentName.Some? {
        var parentRow := FindByName(categories, CategoryName, parentName.value);
        if parentRow.None? {
          return Fail(ValueError(ParentMissing));
        }
        parentId := Some(parentRow.value);
      }
      var row := CategoryRow(name, value, parentId, description);
      UpsertKeepsNamesUnique(categories, CategoryName, row, NextRowId(categories.Keys));
      if ForeignKeysHold(categories, accounts) {
        UpsertCategoryForeignKeys(categories, accounts, row, NextRowId(categories.Keys));
      }
      categories := UpsertByName(categories, CategoryName, row, NextRowId(categories.Keys));
      ghost var upserted := categories;
      CalculateEveryCategory();
      SameShapeNamesUnique(upserted, categories);
      if ForeignKeysHold(upserted, accounts) {
        SameShapeForeignKeys(upserted, categories, accounts);
      }
      return Pass;
    }

    /**
     * upsert_account: the category is looked up by name and must exist; the
     * account is inserted, or the one of the same name has its value,
     * category and remarks overwritten; then every category is recomputed.
     */
    method UpsertAccount(name: string, value: real, categoryName: string, remarks: Option<string>) returns (o: Outcome)
      requires Valid()
      modifies this
      ensures Valid()
      ensures FindByName(old(categories), CategoryName, categoryName).None? ==>
        o == Fail(ValueError(CategoryMissing)) && categories == old(categories) && accounts == old(accounts)
      ensures FindByName(old(categories), CategoryName, categoryName).Some? ==>
        var categoryId := FindByName(old(categories), CategoryName, categoryName).value;
        && o == Pass
        && accounts == UpsertByName(old(accounts), AccountName, AccountRow(name, value, categoryId, remarks), NextRowId(old(accounts).Keys))
        && SameShape(old(categories), categories)
        && RolledUp(categories, accounts)
      ensures old(ForeignKeysHold(categories, accounts)) ==> ForeignKeysHold(categories, accounts)
    {
      var categoryRow := FindByName(categories, CategoryName, categoryName);
      if categoryRow.None? {
        return Fail(ValueError(CategoryMissing));
      }
      var row := AccountRow(name, value, categoryRow.value, remarks);
      var freshId := NextRowId(accounts.Keys);
      UpsertKeepsNamesUnique(accounts, AccountName, row, freshId);
      UpsertAccountForeignKeys(categories, accounts, row, freshId);
      accounts := UpsertByName(accounts, AccountName, row, freshId);
      ghost var written := categories;
      CalculateEveryCategory();
      SameShapeNamesUnique(written, categories);
      if ForeignKeysHold(written, accounts) {
        SameShapeForeignKeys(written, categories, accounts);
      }
      return Pass;
    }

    /**
     * read_categories(name): recompute every category, then build the tree of
     * the category called `name`. A missing name, `None` included, raises a
     * ValueError. The tree is that of `rolled`, the rolled-up table; the table
     * is left rolled up, except after a RecursionError, which the source raises
     * inside a recompute after its reset and before its first write, and
     * which leaves every value at 0.
     */
    method ReadCategories(name: Option<string>) returns (r: Result<Tree>, ghost rolled: map<nat, CategoryRow>)
      requires Valid()
      modifies this
      ensures Valid()
      ensures SameShape(old(categories), rolled) && RolledUp(rolled, accounts)
      ensures RolledUp(old(categories), accounts) ==> rolled == old(categories)
      ensures r != Err(RecursionError) ==> categories == rolled
      ensures r == Err(RecursionError) ==> categories == ResetValues(old(categories))
      ensures accounts == old(accounts)
      ensures name.None? ==> r == Err(ValueError(NotFound("None")))
      ensures name.Some? ==> r == TreeNamed(rolled, accounts, name.value, {})
    {
      if name.None? {
        CalculateEveryCategory();
        SameShapeNamesUnique(old(categories), categories);
        rolled := categories;
        r := Err(ValueError(NotFound("None")));
        return;
      }
      r, rolled := ReadAt(name.value, {});
    }

    /**
     * One call of read_categories, with `open` the categories whose calls are
     * still on the stack. A call that meets a category still on the stack
     * stands for the endless recursion of the source: its deeper calls go on
     * recomputing until one of them fails after the reset of
     * `calculate_every_category`.
     */
    method ReadAt(name: string, open: set<nat>) returns (r: Result<Tree>, ghost rolled: map<nat, CategoryRow>)
      requires Valid()
      modifies this
      ensures Valid()
      ensures SameShape(old(categories), rolled) && RolledUp(rolled, accounts)
      ensures RolledUp(old(categories), accounts) ==> rolled == old(categories)
      ensures r != Err(RecursionError) ==> categories == rolled
      ensures r == Err(RecursionError) ==> categories == ResetValues(old(categories))
      ensures accounts == old(accounts)
      ensures r == TreeNamed(rolled, accounts, name, open)
      decreases categories.Keys - open, 0
    {
      CalculateEveryCategory();
      SameShapeNamesUnique(old(categories), categories);
      rolled := categories;
      ResetSameShape(old(categories), rolled);
      var category := FindByName(categories, CategoryName, name);
      if category.None? {
        r := Err(ValueError(NotFound(name)));
        return;
      }
      var id := category.value;
      if id in open {
        categories := ResetValues(categories);
        SameShapeNamesUnique(rolled, categories);
        r := Err(RecursionError);
        return;
      }
      TreeNamedFound(categories, accounts, name, open, id);
      var nodeName := categories[id].name;
      var nodeValue := categories[id].value;
      var subtrees := ReadChildren(ChildList(categories, id), open + {id});
      if subtrees.Err? {
        r := Err(subtrees.error);
        return;
      }
      var leaves := LeavesOf(accounts, AccountList(accounts, id));
      r := Ok(CategoryNode(nodeName, nodeValue, subtrees.value + leaves));
    }

    /**
     * The loop of read_categories over the child categories, each a recursive
     * call; a RecursionError of a child leaves every value at 0.
     */
    method ReadChildren(kids: seq<nat>, open: set<nat>) returns (r: Result<seq<Tree>>)
      requires Valid() && RolledUp(categories, accounts)
      requires forall j | 0 <= j < |kids| :: kids[j] in categories
      modifies this
      ensures Valid()
      ensures r != Err(RecursionError) ==> categories == old(categories)
      ensures r == Err(RecursionError) ==> categories == ResetValues(old(categories))
      ensures accounts == old(accounts)
      ensures r == Subtrees(old(categories), accounts, kids, open)
      decreases categories.Keys - open, 1
    {
      ghost var cats := categories;
      var children: seq<Tree> := [];
      for i := 0 to |kids|
        invariant Valid() && categories == cats
        invariant accounts == old(accounts)
        invariant Subtrees(cats, accounts, kids[..i], open) == Ok(children)
      {
        var sub, rolled := ReadAt(categories[kids[i]].name, open);
        RollupIsUnique(cats, rolled, accounts);
        SubtreesStep(cats, accounts, kids, open, i, children);
        if sub.Err? {
          return Err(sub.error);
        }
        children := children + [sub.value];
      }
      assert kids[..|kids|] == kids;
      return Ok(children);
    }
  }
}
