/**
 * models.py: the first version of the SQLite store. It upserts rows by name
 * with the same referential checks as the later versions, but never
 * recomputes a category's value: the stored values are whatever was upserted.
 */
module ModelsDb {
  import opened Wrappers
  import opened Tables
  import opened Rollup

  class SqliteDb {
    /** The `categories` table, by id. */
    var categories: map<nat, CategoryRow>
    /** The `accounts` table, by id. */
    var accounts: map<nat, AccountRow>

    /** What the schema enforces: `name ... UNIQUE` in both tables. */
    ghost predicate Valid()
      reads this
    {
      NamesUnique(categories, CategoryName) && NamesUnique(accounts, AccountName)
    }

    /** Opening a database file whose tables hold these rows. */
    constructor (categories0: map<nat, CategoryRow>, accounts0: map<nat, AccountRow>)
      requires NamesUnique(categories0, CategoryName) && NamesUnique(accounts0, AccountName)
      ensures Valid()
      ensures categories == categories0 && accounts == accounts0
    {
      categories := categories0;
      accounts := accounts0;
    }

    /**
     * upsert_category: a parent is looked up by name and must exist; a root
     * is stored with no parent id. The row is inserted, or the row of the same
     * name gets the new value, parent and description; nothing is recomputed.
     */
    method UpsertCategory(name: string, value: real, parentName: Option<string>, description: string) returns (o: Outcome)
      requires Valid()
      modifies this
      ensures Valid()
      ensures parentName.Some? && FindByName(old(categories), CategoryName, parentName.value).None? ==>
        o == Fail(ValueError(ParentMissing)) && categories == old(categories)
      ensures parentName.None? ==>
        o == Pass && categories == UpsertByName(old(categories), CategoryName, CategoryRow(name, value, None, description), NextRowId(old(categories).Keys))
      ensures parentName.Some? && FindByName(old(categories), CategoryName, parentName.value).Some? ==>
        var parentId := FindByName(old(categories), CategoryName, parentName.value).value;
        o == Pass && categories == UpsertByName(old(categories), CategoryName, CategoryRow(name, value, Some(parentId), description), NextRowId(old(categories).Keys))
      ensures old(ForeignKeysHold(categories, accounts)) ==> ForeignKeysHold(categories, accounts)
      ensures accounts == old(accounts)
    {
      var parentId: Option<nat> := None;
      if parentName.Some? {
        var parentRow := FindByName(categories, CategoryName, parentName.value);
        if parentRow.None? {
          return Fail(ValueError(ParentMissing));
        }
        parentId := Some(parentRow.value);
      }
      var row := CategoryRow(name, value, parentId, description);
      UpsertKeepsNamesUnique(categories, CategoryName, row, NextRowId(categories.Keys));
      if ForeignKeysHold(categories, accounts) {
        UpsertCategoryForeignKeys(categories, accounts, row, NextRowId(categories.Keys));
      }
      categories := UpsertByName(categories, CategoryName, row, NextRowId(categories.Keys));
      return Pass;
    }

    /**
     * upsert_account: the category is looked up by name and must exist; the
     * account is inserted, or the one of the same name gets the new value,
     * category and remarks; no category value changes.
     */
    method UpsertAccount(name: string, value: real, categoryName: string, remarks: Option<string>) returns (o: Outcome)
      requires Valid()
      modifies this
      ensures Valid()
      ensures FindByName(old(categories), CategoryName, categoryName).None? ==>
        o == Fail(ValueError(CategoryMissing)) && accounts == old(accounts)
      ensures FindByName(old(categories), CategoryName, categoryName).Some? ==>
        var categoryId := FindByName(old(categories), CategoryName, categoryName).value;
        o == Pass && accounts == UpsertByName(old(accounts), AccountName, AccountRow(name, value, categoryId, remarks), NextRowId(old(accounts).Keys))
      ensures old(ForeignKeysHold(categories, accounts)) ==> ForeignKeysHold(categories, accounts)
      ensures categories == old(categories)
    {
      var categoryRow := FindByName(categories, CategoryName, categoryName);
      if categoryRow.None? {
        return Fail(ValueError(CategoryMissing));
      }
      var row := AccountRow(name, value, categoryRow.value, remarks);
      var freshId := NextRowId(accounts.Keys);
      UpsertKeepsNamesUnique(accounts, AccountName, row, freshId);
      UpsertAccountForeignKeys(categories, accounts, row, freshId);
      accounts := UpsertByName(accounts, AccountName, row, freshId);
      return Pass;
    }
  }
}
