/**
 * db_layer/database.py: the SQLite store of the ledger. Every statement is an
 * atomic update of the two tables; `is_disabled` is kept beside the accounts
 * table because nothing in this file reads it.
 */
module DbLayer {
  import opened Wrappers
  import opened Tables
  import opened Rollup
  import opened Trees

  /** What line 159 raises for an account object without an `is_disabled` attribute. */
  const NoDisabledFlag := "'Account' object has no attribute 'is_disabled'"

  /** The dict `get_account_by_name` builds from `SELECT * FROM accounts`: one entry per column. */
  datatype AccountRecord = AccountRecord(id: nat, name: string, value: real, categoryId: nat, remarks: Option<string>, isDisabled: bool)

  class SqliteDb {
    /** The `categories` table, by id. */
    var categories: map<nat, CategoryRow>
    /** The `accounts` table without its `is_disabled` column, by id. */
    var accounts: map<nat, AccountRow>
    /** The `is_disabled` column of the `accounts` table, by id. */
    var disabled: map<nat, bool>

    /** What the schema enforces: `name ... UNIQUE` in both tables, and one `is_disabled` per account. */
    ghost predicate Valid()
      reads this
    {
      && NamesUnique(categories, CategoryName)
      && NamesUnique(accounts, AccountName)
      && disabled.Keys == accounts.Keys
    }

    /** Opening a database file whose tables hold these rows. */
    constructor (categories0: map<nat, CategoryRow>, accounts0: map<nat, AccountRow>, disabled0: map<nat, bool>)
      requires NamesUnique(categories0, CategoryName) && NamesUnique(accounts0, AccountName)
      requires disabled0.Keys == accounts0.Keys
      ensures Valid()
      ensures categories == categories0 && accounts == accounts0 && disabled == disabled0
    {
      categories := categories0;
      accounts := accounts0;
      disabled := disabled0;
    }

    /**
     * calculate_category_value(id): the stored value plus the values of the
     * accounts of `id` plus the values of its child categories, written back.
     */
    method CalculateCategoryValue(id: nat) returns (o: Outcome)
      modifies this
      ensures id !in old(categories) ==> o == Fail(TypeError(NoRow)) && categories == old(categories)
      ensures id in old(categories) ==> o == Pass && categories == Visit(old(categories), accounts, id)
      ensures accounts == old(accounts) && disabled == old(disabled)
    {
      if id !in categories {
        return Fail(TypeError(NoRow));
      }
      var categoryValue := categories[id].value;
      var totalValue := categoryValue + OwnAccountsValue(accounts, id);
      totalValue := totalValue + ChildCategoriesValue(categories, id);
      categories := categories[id := categories[id].(value := totalValue)];
      return Pass;
    }

    /**
     * calculate_every_category(): reset every value to 0, then visit every
     * category reachable from a root, deepest first. The result is the one
     * rolled-up state of the table, so a second run changes nothing.
     */
    method CalculateEveryCategory()
      modifies this
      ensures SameShape(old(categories), categories)
      ensures RolledUp(categories, accounts)
      ensures RolledUp(old(categories), accounts) ==> categories == old(categories)
      ensures accounts == old(accounts) && disabled == old(disabled)
    {
      categories := ResetValues(categories);
      var categoryIds := CategoryIdsByDepth(categories);
      ghost var shape := categories;
      for i := 0 to |categoryIds|
        invariant SameShape(shape, categories)
        invariant PartlyRolledUp(categories, accounts, categoryIds[..i])
        invariant accounts == old(accounts) && disabled == old(disabled)
      {
        RollupStep(shape, categories, accounts, categoryIds, i);
        var _ := CalculateCategoryValue(categoryIds[i]);
      }
      assert categoryIds[..|categoryIds|] == categoryIds;
      VisitedAll(shape, categories, accounts, categoryIds);
      if RolledUp(old(categories), accounts) {
        RollupIsUnique(old(categories), categories, accounts);
      }
    }

    /**
     * upsert_category: resolve the parent's name to its id, upsert the row by
     * name, then recompute every category.
     */
    method UpsertCategory(name: string, value: real, parentName: Option<string>, description: string) returns (o: Outcome)
      requires Valid()
      modifies this
      ensures Valid()
      ensures parentName.Some? && FindByName(old(categories), CategoryName, parentName.value).None? ==>
        o == Fail(ValueError(ParentMissing)) && categories == old(categories)
      ensures parentName.None? ==>
        o == Pass && SameShape(UpsertByName(old(categories), CategoryName, CategoryRow(name, value, None, description), NextRowId(old(categories).Keys)), categories)
      ensures parentName.Some? && FindByName(old(categories), CategoryName, parentName.value).Some? ==>
        var parentId := FindByName(old(categories), CategoryName, parentName.value).value;
        o == Pass && SameShape(UpsertByName(old(categories), CategoryName, CategoryRow(name, value, Some(parentId), description), NextRowId(old(categories).Keys)), categories)
      ensures o == Pass ==> RolledUp(categories, accounts)
      ensures old(ForeignKeysHold(categories, accounts)) ==> ForeignKeysHold(categories, accounts)
      ensures accounts == old(accounts) && disabled == old(disabled)
    {
      var parentId: Option<nat> := None;
      if parentName.Some? {
        var parentRow := FindByName(categories, CategoryName, parentName.value);
        if parentRow.None? {
          return Fail(ValueError(ParentMissing));
        }
        parentId := Some(parentRow.value);
      }
      var row := CategoryRow(name, value, parentId, description);
      UpsertKeepsNamesUnique(categories, CategoryName, row, NextRowId(categories.Keys));
      if ForeignKeysHold(categories, accounts) {
        UpsertCategoryForeignKeys(categories, accounts, row, NextRowId(categories.Keys));
      }
      categories := UpsertByName(categories, CategoryName, row, NextRowId(categories.Keys));
      ghost var upserted := categories;
      CalculateEveryCategory();
      SameShapeNamesUnique(upserted, categories);
      if ForeignKeysHold(upserted, accounts) {
        SameShapeForeignKeys(upserted, categories, accounts);
      }
      return Pass;
    }

    /**
     * upsert_account: resolve the category's name to its id, read the
     * account's `is_disabled` attribute, upsert the row by name, then recompute
     * every category. An update leaves `is_disabled` as it was; `isDisabled`
     * is None for an account object without that attribute.
     */
    method UpsertAccount(name: string, value: real, categoryName: string, remarks: Option<string>, isDisabled: Option<bool>) returns (o: Outcome)
      requires Valid()
      modifies this
      ensures Valid()
      ensures FindByName(old(categories), CategoryName, categoryName).None? ==>
        o == Fail(ValueError(CategoryMissing)) && categories == old(categories) && accounts == old(accounts) && disabled == old(disabled)
      ensures FindByName(old(categories), CategoryName, categoryName).Some? && isDisabled.None? ==>
        o == Fail(AttributeError(NoDisabledFlag)) && categories == old(categories) && accounts == old(accounts) && disabled == old(disabled)
      ensures FindByName(old(categories), CategoryName, categoryName).Some? && isDisabled.Some? ==>
        var categoryId := FindByName(old(categories), CategoryName, categoryName).value;
        var freshId := NextRowId(old(accounts).Keys);
        && o == Pass
        && accounts == UpsertByName(old(accounts), AccountName, AccountRow(name, value, categoryId, remarks), freshId)
        && (FindByName(old(accounts), AccountName, name).Some? ==> disabled == old(disabled))
        && (FindByName(old(accounts), AccountName, name).None? ==> disabled == old(disabled)[freshId := isDisabled.value])
        && SameShape(old(categories), categories)
        && RolledUp(categories, accounts)
      ensures old(ForeignKeysHold(categories, accounts)) ==> ForeignKeysHold(categories, accounts)
    {
      var categoryRow := FindByName(categories, CategoryName, categoryName);
      if categoryRow.None? {
        return Fail(ValueError(CategoryMissing));
      }
      if isDisabled.None? {
        return Fail(AttributeError(NoDisabledFlag));
      }
      InsertAccount(AccountRow(name, value, categoryRow.value, remarks), isDisabled.value);
      ghost var written := categories;
      CalculateEveryCategory();
      SameShapeNamesUnique(written, categories);
      if ForeignKeysHold(written, accounts) {
        SameShapeForeignKeys(written, categories, accounts);
      }
      return Pass;
    }
  
    /**
     * The statement `INSERT INTO accounts (name, value, category_id, remarks,
     * is_disabled) VALUES (...) ON CONFLICT (name) DO UPDATE SET value,
     * category_id, remarks`: `is_disabled` is written only by the insert.
     */
    method InsertAccount(row: AccountRow, isDisabled: bool)
      requires Valid()
      modifies this
      ensures Valid()
      ensures accounts == UpsertByName(old(accounts), AccountName, row, NextRowId(old(accounts).Keys))
      ensures FindByName(old(accounts), AccountName, row.name).Some? ==> disabled == old(disabled)
      ensures FindByName(old(accounts), AccountName, row.name).None? ==> disabled == old(disabled)[NextRowId(old(accounts).Keys) := isDisabled]
      ensures old(ForeignKeysHold(categories, accounts)) && row.categoryId in categories ==> ForeignKeysHold(categories, accounts)
      ensures categories == old(categories)
    {
      var freshId := NextRowId(accounts.Keys);
      var existing := FindByName(accounts, AccountName, AccountName(row));
      UpsertKeepsNamesUnique(accounts, AccountName, row, freshId);
      UpsertAccountForeignKeys(categories, accounts, row, freshId);
      UpsertSideKeys(accounts, AccountName, row, freshId, disabled, isDisabled);
      accounts := UpsertByName(accounts, AccountName, row, freshId);
      disabled := if existing.None? then disabled[freshId := isDisabled] else disabled;
    }
  
    /**
     * get_category_tree(name): recompute every category, then build the tree of
     * the category called `name`. A missing name, `None` included, raises a
     * ValueError. The tree is that of `rolled`, the rolled-up table; the table
     * is left rolled up, except after a RecursionError, which the source raises
     * inside a recompute after its reset and before its first write, and
     * which leaves every value at 0.
     */
    method GetCategoryTree(name: Option<string>) returns (r: Result<Tree>, ghost rolled: map<nat, CategoryRow>)
      requires Valid()
      modifies this
      ensures Valid()
      ensures SameShape(old(categories), rolled) && RolledUp(rolled, accounts)
      ensures RolledUp(old(categories), accounts) ==> rolled == old(categories)
      ensures r != Err(RecursionError) ==> categories == rolled
      ensures r == Err(RecursionError) ==> categories == ResetValues(old(categories))
      ensures accounts == old(accounts) && disabled == old(disabled)
      ensures name.None? ==> r == Err(ValueError(NotFound("None")))
      ensures name.Some? ==> r == TreeNamed(rolled, accounts, name.value, {})
    {
      if name.None? {
        CalculateEveryCategory();
        SameShapeNamesUnique(old(categories), categories);
        rolled := categories;
        r := Err(ValueError(NotFound("None")));
        return;
      }
      r, rolled := TreeAt(name.value, {});
    }

    /**
     * One call of get_category_tree, with `open` the categories whose calls
     * are still on the stack. Each call recomputes every category first; after
     * the first call that finds the table rolled up and changes nothing. A
     * call that meets a category still on the stack stands for the endless
     * recursion of the source: its deeper calls go on recomputing until one of
     * them fails after the reset of `calculate_every_category`.
     */
    method TreeAt(name: string, open: set<nat>) returns (r: Result<Tree>, ghost rolled: map<nat, CategoryRow>)
      requires Valid()
      modifies this
      ensures Valid()
      ensures SameShape(old(categories), rolled) && RolledUp(rolled, accounts)
      ensures RolledUp(old(categories), accounts) ==> rolled == old(categories)
      ensures r != Err(RecursionError) ==> categories == rolled
      ensures r == Err(RecursionError) ==> categories == ResetValues(old(categories))
      ensures accounts == old(accounts) && disabled == old(disabled)
      ensures r == TreeNamed(rolled, accounts, name, open)
      decreases categories.Keys - open, 0
    {
      CalculateEveryCategory();
      SameShapeNamesUnique(old(categories), categories);
      rolled := categories;
      ResetSameShape(old(categories), rolled);
      var category := FindByName(categories, CategoryName, name);
      if category.None? {
        r := Err(ValueError(NotFound(name)));
        return;
      }
      var id := category.value;
      if id in open {
        categories := ResetValues(categories);
        SameShapeNamesUnique(rolled, categories);
        r := Err(RecursionError);
        return;
      }
      TreeNamedFound(categories, accounts, name, open, id);
      var nodeName := categories[id].name;
      var nodeValue := categories[id].value;
      var subtrees := SubtreesAt(ChildList(categories, id), open + {id});
      if subtrees.Err? {
        r := Err(subtrees.error);
        return;
      }
      var leaves := LeavesOf(accounts, AccountList(accounts, id));
      r := Ok(CategoryNode(nodeName, nodeValue, subtrees.value + leaves));
    }

    /**
     * The loop over the child categories of one call, each child a recursive
     * call; a RecursionError of a child leaves every value at 0.
     */
    method SubtreesAt(kids: seq<nat>, open: set<nat>) returns (r: Result<seq<Tree>>)
      requires Valid() && RolledUp(categories, accounts)
      requires forall j | 0 <= j < |kids| :: kids[j] in categories
      modifies this
      ensures Valid()
      ensures r != Err(RecursionError) ==> categories == old(categories)
      ensures r == Err(RecursionError) ==> categories == ResetValues(old(categories))
      ensures accounts == old(accounts) && disabled == old(disabled)
      ensures r == Subtrees(old(categories), accounts, kids, open)
      decreases categories.Keys - open, 1
    {
      ghost var cats := categories;
      var children: seq<Tree> := [];
      for i := 0 to |kids|
        invariant Valid() && categories == cats
        invariant accounts == old(accounts) && disabled == old(disabled)
        invariant Subtrees(cats, accounts, kids[..i], open) == Ok(children)
      {
        var sub, rolled := TreeAt(categories[kids[i]].name, open);
        RollupIsUnique(cats, rolled, accounts);
        SubtreesStep(cats, accounts, kids, open, i, children);
        if sub.Err? {
          return Err(sub.error);
        }
        children := children + [sub.value];
      }
      assert kids[..|kids|] == kids;
      return Ok(children);
    }

    /**
     * get_category_names: `SELECT DISTINCT name FROM categories`. SQLite leaves
     * the order of the names open, so the contract states none; the body lists
     * them in id order.
     */
    method GetCategoryNames() returns (names: seq<string>)
      requires Valid()
      ensures |names| == |categories|
      ensures forall i, j | 0 <= i < j < |names| :: names[i] != names[j]
      ensures forall n :: n in names <==> n in CategoryNames(categories)
    {
      var ids := Ascending(categories.Keys);
      names := [];
      for i := 0 to |ids|
        invariant |names| == i
        invariant forall k | 0 <= k < i :: names[k] == categories[ids[k]].name
      {
        names := names + [categories[ids[i]].name];
      }
      ScannedNames(categories, names);
    }

    /** get_account_by_name: the columns of the account called `name`, or None. */
    method GetAccountByName(name: string) returns (r: Option<AccountRecord>)
      requires Valid()
      ensures r.None? <==> forall a | a in accounts :: accounts[a].name != name
      ensures r.Some? ==> r.value.id in accounts && r.value.name == name
      ensures r.Some? ==> var row := accounts[r.value.id];
        r.value == AccountRecord(r.value.id, row.name, row.value, row.categoryId, row.remarks, disabled[r.value.id])
    {
      var found := FindByName(accounts, AccountName, name);
      if found.None? {
        return None;
      }
      var id := found.value;
      var row := accounts[id];
      return Some(AccountRecord(id, row.name, row.value, row.categoryId, row.remarks, disabled[id]));
    }
  }
}
