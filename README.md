# tub-ledger in Dafny

A Dafny model of the core of tub-ledger, a personal balance-sheet ledger. A
ledger holds **categories** (Assets, Current Assets, Liabilities, ...), linked
to their parents, and **accounts**. Each account sits under one category and carries a value. A
category's value is the total of everything below it.

The model covers:

- **The SQLite store with its roll-up engine** (`db_layer/database.py`, the
  primary version).
  - The `categories` and `accounts` tables are maps from row id to row.
  - Every SQL statement is one atomic update of those maps.
  - `upsert_category` and `upsert_account` do insert-or-update keyed by name,
    with a lookup of the parent or owning category by name.
  - `calculate_every_category`: reset every value to 0, evaluate the
    recursive CTE level by level, then visit the categories deepest first.
  - `get_category_tree` reads the recursive tree.
  - `get_category_names` and `get_account_by_name`.
- **Two earlier versions of the store.** `database.py` has the same engine
  without an `is_disabled` column. `models.py` upserts by name and never
  recomputes.
- **The in-memory composite** of `models/accounting.py`,
  `financial/accounting.py` and `main.py`. These are `Category` and `Account`
  objects whose constructors append them to their parent's `children` list.
  The model also covers `calculate_value`, `to_dict`, `to_csv_row` and the
  net worth of `print_balance_sheet`.
- **The CSV store** (`flat_file_db/csv_db.py`): the replace-first-match-or-append
  loop of `upsert_csv`.

Modules:

| module | file | what it holds |
|---|---|---|
| `Wrappers` | `wrappers.dfy` | `Option`, `Result` and `Outcome`, plus the Python exceptions the code raises |
| `Tables` | `tables.dfy` | Row types, scan order and row ids, the sums of the roll-up, the name-keyed upsert |
| `Rollup` | `rollup.dfy` | The levels of the recursive CTE, the visit order, and the rolled-up state with its uniqueness |
| `Trees` | `trees.dfy` | The tree `get_category_tree` returns, and when its recursion ends |
| `DbLayer` | `dblayer.dfy` | `db_layer/database.py` as a class over the two tables |
| `Database` | `database.dfy` | `database.py` |
| `ModelsDb` | `modelsdb.dfy` | `models.py` |
| `Accounting` | `accounting.dfy` | The object graph of the three accounting files |
| `FlatFileDb` | `flatfiledb.dfy` | `flat_file_db/csv_db.py` |


Modelling choices:

- **Scan order.** A `SELECT` without `ORDER BY` that filters on an unindexed
  column (`WHERE parent_id = ?`, `WHERE category_id = ?`) returns rows in
  ascending id order (`Ascending`). A lookup by the UNIQUE `name` matches at
  most one row.
- **Row ids.** A new row gets SQLite's rowid: one more than the largest id, or
  1 for an empty table (`NextRowId`).
- **Monetary values** are `real`. SQLite REAL and Python floats round; the
  model does not.
- **Sums** are left-to-right additions over the rows in scan order, as Python's
  `sum` computes them.
- **The database file is I/O.** The store classes' constructors take the rows
  the tables hold on opening.
- **Python objects** are handles (indices) into one growing sequence of
  objects. A `children` list can therefore be appended to in place, and an
  object can appear in several lists or inside its own subtree.
- **Unbounded recursion.** Python ends endless recursion with a
  RecursionError. The model raises it as soon as a call meets a category whose
  call is still on the stack. This is the `open` parameter of the recursive
  members. Revisiting a category only happens on a cycle, and a cycle
  recurses forever in Python.

Behaviour of the code that the model keeps as written:

- The roll-up adds **every** account of a category, disabled ones included.
  `db_layer/database.py:46-50` defines an `enabled_accounts` view, but the
  roll-up at `:72` reads `accounts`, so disabled accounts are counted.
- On conflict, `upsert_account` overwrites value, category and remarks but not
  `is_disabled` (`db_layer/database.py:154-157`).
- Parent links may form a cycle: no upsert prevents it. A category on a cycle
  is not reachable from a root. The roll-up leaves it at 0
  (`Trees.CycleUnreachable`), and reading its tree ends in a RecursionError
  (`Trees.CycleTreeFails`).
- `get_category_tree` recomputes every category at every level of its
  recursion (`db_layer/database.py:172`). The model does this too, and proves
  that every recompute after the first changes nothing
  (`Rollup.RollupIsUnique`).
- On a cycle, the recursion ends in a RecursionError. Each level's deepest
  frames are the callees of `calculate_every_category`, so the frame past the
  limit is pushed after `UPDATE categories SET value = 0` was committed
  (`db_layer/database.py:87-88`) and before the first `UPDATE ... SET value=?`
  (`:79`). The error therefore leaves every category value at 0. The model
  leaves the table reset the same way after a RecursionError
  (`ResetValues`). After any other outcome it leaves the table rolled up.
- `upsert_account` in `db_layer/database.py:159` reads `account.is_disabled`.
  None of the `Account` classes in the code defines that attribute. The flag
  is an `Option<bool>` parameter. `None` stands for such an account, and the
  call then fails with an `AttributeError` before anything is written.

## Model

| member | source | states |
|---|---|---|
| Tables.Ascending | db_layer/database.py:188-189 | every id of the set is listed, only ids of the set, in strictly increasing order: the order in which a scan meets the rows |
| Tables.CardinalityOfAscending | db_layer/database.py:237-239 | a scan meets as many rows as the table holds |
| Tables.NextRowId | db_layer/database.py:23-24 | an inserted row gets an id above every existing id: 1 in an empty table, otherwise one more than the largest id |
| Tables.FindByName | db_layer/database.py:113-115 | `fetchone()` of `SELECT id ... WHERE name = ?` is None exactly when no row has the name; otherwise it is a row with that name, the one with the least id (under UNIQUE the only one) |
| Tables.UpsertByName | db_layer/database.py:124-133 | rows with other names are untouched, and every row is either the new row or its old self. On a conflict the ids and row count stay the same; otherwise exactly one row is added under the fresh id. Looking the name up afterwards finds the new row |
| Tables.UpsertKeepsNamesUnique | db_layer/database.py:25 | the upsert keeps the UNIQUE constraint on `name` |
| Tables.UpsertIdempotent | db_layer/database.py:124-133 | upserting the same row a second time leaves the table as after the first upsert |
| Tables.ScannedNames | db_layer/database.py:236-240 | the names read one per category are pairwise distinct and exactly the names in the table |
| Rollup.CategoryIdsByDepth | db_layer/database.py:91-103 | the CTE lists every category reachable from a root exactly once and no other category, sorted by depth with the deepest first, so never a category at or after one of its children |
| Rollup.ResetValues | db_layer/database.py:87 | every value becomes 0; names, parents and descriptions are unchanged |
| Rollup.RollupStep | db_layer/database.py:66-79 | when the loop reaches a category, its stored value is still the reset 0. Visiting it keeps every category visited before it equal to its own accounts plus its children |
| Rollup.VisitedAll | db_layer/database.py:104-105 | once every listed category has been visited, every reachable category holds its accounts plus its child categories, and every other category holds 0 |
| Rollup.RollupIsUnique | db_layer/database.py:86-105 | two rolled-up tables that differ only in values are equal, so the roll-up result is determined and a second roll-up changes nothing |
| Rollup.UpsertCategoryForeignKeys | db_layer/database.py:111-133 | upserting a category whose parent exists keeps every `parent_id` and `category_id` pointing at a category |
| Rollup.UpsertAccountForeignKeys | db_layer/database.py:142-161 | upserting an account whose category exists keeps every foreign key valid |
| Trees.AccountLeaves | db_layer/database.py:200-205 | one `{name, value, remarks}` leaf per account, in the given order |
| Trees.LeavesOf | db_layer/database.py:200-205 | the append loop over the accounts yields exactly those leaves |
| Trees.TreeNamed | db_layer/database.py:166-207 | the call fails with ValueError("No category found with name ...") exactly when no category has the name. A found category fails only with RecursionError. A result is the node of the found category: its name and stored value, one subtree per child category in scan order (named after it), then one leaf per account |
| Trees.Subtrees | db_layer/database.py:192-193 | the loop fails only with RecursionError; otherwise it gives one subtree per child category, in order, each named after its category |
| Trees.SubtreesPrefixFails | db_layer/database.py:192-193 | the first failing recursive call ends the loop with its error |
| Trees.SubtreesStep | db_layer/database.py:192-193 | one turn of the loop either appends the next subtree or ends the loop with the subtree's error |
| Trees.ReachableTreeOk | db_layer/database.py:166-207 | the tree of a category reachable from a root is always built without error |
| Trees.CycleUnreachable | db_layer/database.py:91-101 | a category on a parent cycle is not reachable from a root, so the CTE never lists it |
| Trees.CycleTreeFails | db_layer/database.py:188-193 | reading the tree of a category on a parent cycle recurses without end and ends in a RecursionError |
| Trees.LeavesTotal | db_layer/database.py:200-205 | the leaves' values add up to the total of the accounts |
| Trees.SubtreesTotal | db_layer/database.py:188-193 | the subtrees' values add up to the total of the child categories' stored values |
| Trees.TreeValueIsChildrenTotal | db_layer/database.py:172-207 | after the recompute, a reachable category's node holds the sum of its children's values: child subtrees plus account leaves |
| DbLayer.SqliteDb.constructor | db_layer/database.py:10-52 | opening a database gives a store over the tables' rows, with names unique and one `is_disabled` flag per account |
| DbLayer.SqliteDb.CalculateCategoryValue | db_layer/database.py:59-80 | an id without a row fails at `fetchone()[0]` with a TypeError and changes nothing. Otherwise only that category's value changes, to its stored value plus its accounts plus its child categories |
| DbLayer.SqliteDb.CalculateEveryCategory | db_layer/database.py:82-105 | only values change. Afterwards every reachable category holds its accounts plus its child categories and every other category holds 0. On an already rolled-up table nothing changes |
| DbLayer.SqliteDb.UpsertCategory | db_layer/database.py:107-135 | a missing parent raises ValueError("Parent category does not exist in the database") and changes nothing. Otherwise the table has the shape of the name-keyed upsert (a root stores no parent id), is rolled up, and keeps its foreign keys |
| DbLayer.SqliteDb.UpsertAccount | db_layer/database.py:137-163 | a missing category raises ValueError("Category does not exist in the database") and changes nothing. Otherwise the accounts are the name-keyed upsert; `is_disabled` is set only for a new row; the categories are rolled up |
| DbLayer.SqliteDb.InsertAccount | db_layer/database.py:151-161 | the INSERT ... ON CONFLICT statement writes `is_disabled` only when it inserts a new row |
| DbLayer.SqliteDb.GetCategoryTree | db_layer/database.py:166-207 | the categories are rolled up first. `name=None` fails with ValueError("No category found with name None"). Otherwise the result is the tree of the named category over the rolled-up table of the same shape. A RecursionError leaves every value at 0; any other outcome leaves the rolled-up table, which is the old one when that was already rolled up. Accounts and flags are unchanged |
| DbLayer.SqliteDb.TreeAt | db_layer/database.py:166-207 | each recursive call recomputes, then returns the tree of the named category over the rolled-up table, or the error that ends its recursion. A call that meets a category still on the stack ends with RecursionError and every value reset to 0 |
| DbLayer.SqliteDb.SubtreesAt | db_layer/database.py:188-193 | the loop of recursive calls over the child categories yields their subtrees, or the first error. The table is unchanged, except after a RecursionError, which leaves every value at 0 |
| DbLayer.SqliteDb.GetCategoryNames | db_layer/database.py:231-240 | one name per category, pairwise distinct, exactly the names in the table |
| DbLayer.SqliteDb.GetAccountByName | db_layer/database.py:242-256 | None exactly when no account has the name; otherwise every column of that account's row, `is_disabled` included |
| Database.SqliteDb.constructor | database.py:10-41 | opening a database gives a store over the tables' rows, with names unique |
| Database.SqliteDb.CalculateCategoryValue | database.py:43-63 | TypeError and no change for an id without a row; otherwise only that category's value changes, to stored value plus accounts plus child categories |
| Database.SqliteDb.CalculateEveryCategory | database.py:65-88 | only values change; the table ends rolled up; an already rolled-up table is unchanged |
| Database.SqliteDb.UpsertCategory | database.py:90-118 | missing parent: ValueError and no change. Otherwise the shape of the name-keyed upsert, rolled up, foreign keys kept |
| Database.SqliteDb.UpsertAccount | database.py:120-145 | missing category: ValueError and no change. Otherwise the accounts are the name-keyed upsert, overwriting value, category and remarks, and the categories are rolled up |
| Database.SqliteDb.ReadCategories | database.py:148-189 | rolled up first; `None` or an unknown name raises ValueError. Otherwise the result is the node of the category over the rolled-up table, with the subtrees of its child categories first and then one leaf per account. A RecursionError leaves every value at 0; any other outcome leaves the rolled-up table |
| Database.SqliteDb.ReadAt | database.py:148-189 | each recursive call recomputes, then returns the tree of the named category over the rolled-up table or the error that ends its recursion. A category still on the stack ends it with RecursionError and every value reset to 0 |
| Database.SqliteDb.ReadChildren | database.py:170-175 | the loop of recursive calls yields the child categories' subtrees or the first error. The table is unchanged, except after a RecursionError, which leaves every value at 0 |
| ModelsDb.SqliteDb.constructor | models.py:10-41 | opening a database gives a store over the tables' rows, with names unique |
| ModelsDb.SqliteDb.UpsertCategory | models.py:43-70 | missing parent: ValueError and no change. Otherwise the categories are exactly the name-keyed upsert (a root with no parent id), with no value recomputed; the accounts are untouched |
| ModelsDb.SqliteDb.UpsertAccount | models.py:72-96 | missing category: ValueError and no change. Otherwise the accounts are exactly the name-keyed upsert and the categories are untouched |
| Accounting.AdoptKeepsOrdered | models/accounting.py:14-15 | adding a new object as the last child of an older category keeps every child newer than its parent |
| Accounting.CategoryValue | models/accounting.py:20-36 | calculate_value fails only with RecursionError; a childless category is 0 |
| Accounting.ChildrenValue | models/accounting.py:30-36 | the accumulator loop fails only with RecursionError |
| Accounting.ChildrenValueConcat | models/accounting.py:30-36 | the children's total distributes over concatenation: defined exactly when both parts are, and then equal to the sum of the parts |
| Accounting.OrderedValueOk | models/accounting.py:8-36 | on objects built by the constructors, calculate_value never fails |
| Accounting.OwnValueIgnored | models/accounting.py:30-36 | a category's stored `value` takes no part: changing it changes no calculated value |
| Accounting.AdoptAddsContribution | models/accounting.py:68-73 | a new account raises its category's calculated value by exactly its own value; a new child category adds 0 |
| Accounting.DictOf | models/accounting.py:38-50 | to_dict gives the category's name and one entry per child, in order: the child's dict for a category, `{name, value}` for an account |
| Accounting.ChildDicts | models/accounting.py:45-49 | the loop gives one entry per child in order, or fails only with RecursionError |
| Accounting.DictAgreesWithValue | models/accounting.py:44 | to_dict fails exactly when calculate_value fails, and otherwise reports the calculated value |
| Accounting.AccountCsvRow | financial/accounting.py:67-68 | `[name, value, category's name, remarks]`, with absent remarks as a None cell; models/accounting.py:75-76 is the same method |
| Accounting.CategoryCsvRow | financial/accounting.py:52-53 | fails with AttributeError exactly for a category without a parent; otherwise `[name, value, parent's name, description]` |
| Accounting.NetWorthIsValueDifference | models/accounting.py:106-112 | the net worth is the assets' calculated value minus the liabilities'. It is always defined for two categories of objects built by the constructors |
| Accounting.ObjectGraph.NewCategory | models/accounting.py:8-15 | a root is appended with no children. With a category parent, the new category becomes the parent's last child. An Account parent raises AttributeError and nothing changes. The constructors keep every child newer than its parent. financial/accounting.py:8-15 is the same constructor; main.py:11-17 has no description, modelled as `""` |
| Accounting.ObjectGraph.FromEnum | models/accounting.py:52-59 | a new root category named by the enum value, value 0, no children, empty description |
| Accounting.ObjectGraph.NewAccount | models/accounting.py:68-73 | the account becomes the last child of its category. A None category, or an Account in that place, raises AttributeError and nothing changes. financial/accounting.py:60-65 and main.py:59-64 are the same constructor |
| Accounting.ObjectGraph.AddChild | models/accounting.py:17-18 | the child is appended to the end of the children and nothing else changes; an Account has no add_child. financial/accounting.py:17-18 and main.py:19-20 are the same method |
| Accounting.ObjectGraph.CalculateValue | models/accounting.py:20-36 | the accumulator loop with recursion computes calculate_value's result; financial/accounting.py:20-36 and main.py:22-38 are the same method |
| Accounting.ObjectGraph.ToDict | models/accounting.py:38-50 | the loop builds to_dict's result; financial/accounting.py:38-50 and main.py:40-52 are the same method |
| Accounting.ObjectsNetWorth | financial/accounting.py:87-93 | the net worth is the value of `assets.to_dict()` minus that of `liabilities.to_dict()`. An Account raises AttributeError. main.py:74-80 computes the same net worth |
| Accounting.DbNetWorth | models/accounting.py:101-103 | the net worth from the store is the "Assets" tree's value minus the "Liabilities" tree's, over the rolled-up tables. A failing "Assets" read raises before "Liabilities" is read. The call changes only category values, and the store keeps its rows, parents and accounts. After a RecursionError every value is 0. Otherwise the store is rolled up, and unchanged if it already was |
| Accounting.BalanceSheetNetWorth | models/accounting.py:97-113 | with no store and an object missing, ValueError("Either 'sqlite_db' or both 'assets' and 'liabilities' must be provided"). With a store, its trees are used, with the store left as that branch leaves it. Otherwise the result is the objects' net worth |
| FlatFileDb.FirstMatch | flat_file_db/csv_db.py:29-32 | the loop stops at the first row whose first cell is the name, with all rows before it non-empty and different. It runs out only when no row matches and none is empty. Otherwise an empty row before any match raises IndexError |
| FlatFileDb.UpsertRows | flat_file_db/csv_db.py:29-34 | on a match only that row is replaced and all others stay. With no match the row is appended and the length grows by one. A failing scan or row leaves the file unchanged |
| FlatFileDb.UpsertRowsIdempotent | flat_file_db/csv_db.py:29-34 | upserting the same object's row again gives the same rows |
| FlatFileDb.UpsertRowList | flat_file_db/csv_db.py:29-34 | the `for ... else` loop computes the upsert |
| FlatFileDb.CsvDb.UpsertCsv | flat_file_db/csv_db.py:18-53 | an Account is upserted into accounts.csv and a Category into categories.csv, leaving the other file alone. A failure leaves the file as it was. Any other object raises ValueError("Unsupported object type") |

## Left out

- File and database I/O are not modelled: connections, cursors, `commit`,
  `close`, directory creation, the schema DDL and the `enabled_accounts` view.
  Each statement is an atomic update of in-memory tables, and commit semantics
  are not modelled.
- SQLite rounding of REAL values and Python float arithmetic are not
  modelled: values are exact `real`s.
- Printing is not modelled: `print`, `print_composite`,
  `print_nested_category`, the `"{:,.2f}"` formatting and the header lines of
  `print_balance_sheet`. Of `print_balance_sheet` only the argument check, the
  dicts and the net worth are modelled.
- CSV reading and writing are not modelled. The files are lists of rows of
  cells. Writing turns every cell into text, and a later upsert reads back
  text; the model keeps the cells as they were built.
- `cli.py`, `cli_layer/` and `tests/` are not modelled: they are interactive
  prompts and test scripts.
- The commented-out `get_category_fields_by_name` is not modelled.
- DbLayer.SqliteDb.GetCategoryNames: returns the names in id order. SQLite
  leaves the order of `SELECT DISTINCT name` unspecified, and in practice it
  follows the index on the UNIQUE `name` column. The contract states no order.
- Rollup.CategoryIdsByDepth: the order among categories of equal depth is left
  open, as `ORDER BY depth DESC` leaves it.
- DbLayer.SqliteDb.UpsertAccount: an account object without `is_disabled` is
  modelled by the `None` flag. The `print` at `db_layer/database.py:160` is
  not modelled.
- Trees.TreeNamed: the RecursionError is raised at the first call that meets a
  category still on the stack, not after Python's recursion limit of nested
  frames. The result is the same error, and the table is left with every value
  at 0, as the source's interrupted recompute leaves it. A very deep legal
  tree, which would also hit the limit, is built here.
- Accounting.CategoryValue: the RecursionError of a cycle is raised at the
  first repeated category on the stack, not at Python's recursion limit.
- Accounting.AdoptAddsContribution: states the increase for the category that
  receives the new account. That every ancestor grows by the same amount is
  not proved.
- Accounting.BalanceSheetNetWorth: only the `db_layer/database.py` store is
  modelled as `sqlite_db`. The `database.py` and `models.py` stores have no
  `get_category_tree`, so passing one of them raises an AttributeError at
  `models/accounting.py:102`; the model cannot pass such a store.
- Accounting.ObjectGraph.AddChild: only objects of the graph can be added. The
  Python method accepts any object, and a non-Category, non-Account child would
  make `calculate_value` read its `value` attribute.
- FlatFileDb.CsvDb.UpsertCsv: "any other object" is a single `OtherObject`
  case. A Python object of another class that has `name` and `to_csv_row` is
  still refused, as the code does.
- FlatFileDb.UpsertRowsIdempotent: idempotence is shown on the rows in memory.
  After a write and re-read the numeric and None cells are text, so a
  file-level round trip is not covered.
