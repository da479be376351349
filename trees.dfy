/**
 * The nested tree get_category_tree (and read_categories before it) builds
 * from the two tables: a category with its child categories' trees followed by
 * one leaf per account, looked up by name at every level of the recursion.
 */
module Trees {
  import opened Wrappers
  import opened Tables
  import opened Rollup

  /**
   * `{'name', 'value', 'children'}` for a category, `{'name', 'value',
   * 'remarks'}` for an account.
   */
  datatype Tree =
    | CategoryNode(name: string, value: real, children: seq<Tree>)
    | AccountLeaf(name: string, value: real, remarks: Option<string>)

  /** The message of the ValueError raised for a name no category has. */
  function NotFound(name: string): string
  {
    "No category found with name " + name
  }

  /** The leaf built from one row of `SELECT id, name, value, remarks FROM accounts WHERE category_id = ?`. */
  function Leaf(row: AccountRow): Tree
  {
    AccountLeaf(row.name, row.value, row.remarks)
  }

  /** One leaf per account of `ids`, in that order. */
  function AccountLeaves(accts: map<nat, AccountRow>, ids: seq<nat>): (r: seq<Tree>)
    requires forall i | 0 <= i < |ids| :: ids[i] in accts
    ensures |r| == |ids|
    ensures forall i | 0 <= i < |ids| :: r[i] == Leaf(accts[ids[i]])
  {
    if ids == [] then [] else AccountLeaves(accts, ids[..|ids| - 1]) + [Leaf(accts[ids[|ids| - 1]])]
  }

  /** The loop that appends one `{name, value, remarks}` entry per account of a category. */
  method LeavesOf(accts: map<nat, AccountRow>, ids: seq<nat>) returns (leaves: seq<Tree>)
    requires forall j | 0 <= j < |ids| :: ids[j] in accts
    ensures leaves == AccountLeaves(accts, ids)
  {
    leaves := [];
    for j := 0 to |ids|
      invariant leaves == AccountLeaves(accts, ids[..j])
    {
      assert ids[..j + 1][..j] == ids[..j];
      leaves := leaves + [Leaf(accts[ids[j]])];
    }
    assert ids[..|ids|] == ids;
  }

  /** The child categories of `id` in scan order. */
  function ChildList(cats: map<nat, CategoryRow>, id: nat): seq<nat>
  {
    Ascending(ChildIdsOf(cats, id))
  }

  /** The accounts of category `id` in scan order. */
  function AccountList(accts: map<nat, AccountRow>, id: nat): seq<nat>
  {
    Ascending(AccountIdsOf(accts, id))
  }

  /**
   * `t` is the node of category `id`: its name and stored value, then one
   * subtree per child category, in scan order, then one leaf per account of
   * the category, in scan order.
   */
  predicate NodeOf(cats: map<nat, CategoryRow>, accts: map<nat, AccountRow>, id: nat, t: Tree)
    requires id in cats
  {
    var kids := ChildList(cats, id);
    var accs := AccountList(accts, id);
    && t.CategoryNode? && t.name == cats[id].name && t.value == cats[id].value
    && |t.children| == |kids| + |accs|
    && (forall i | 0 <= i < |kids| :: t.children[i].CategoryNode? && t.children[i].name == cats[kids[i]].name)
    && t.children[|kids|..] == AccountLeaves(accts, accs)
  }

  /**
   * get_category_tree(name) on fixed tables, with `open` the categories whose
   * calls are still on the Python call stack. Meeting one of them again is the
   * unbounded recursion of a parent cycle, which Python ends with a
   * RecursionError.
   */
  function TreeNamed(cats: map<nat, CategoryRow>, accts: map<nat, AccountRow>, name: string, open: set<nat>): (r: Result<Tree>)
    ensures FindByName(cats, CategoryName, name).None? <==> r == Err(ValueError(NotFound(name)))
    ensures FindByName(cats, CategoryName, name).Some? && r.Err? ==> r.error == RecursionError
    ensures r.Ok? ==> FindByName(cats, CategoryName, name).Some?
    ensures r.Ok? ==> NodeOf(cats, accts, FindByName(cats, CategoryName, name).value, r.value)
    ensures r.Ok? ==> r.value.CategoryNode? && r.value.name == name
    decreases cats.Keys - open, 0
  {
    match FindByName(cats, CategoryName, name)
    case None => Err(ValueError(NotFound(name)))
    case Some(id) =>
      if id in open then
        Err(RecursionError)
      else
        match Subtrees(cats, accts, ChildList(cats, id), open + {id})
        case Err(e) => Err(e)
        case Ok(subtrees) =>
          var leaves := AccountLeaves(accts, AccountList(accts, id));
          assert (subtrees + leaves)[|subtrees|..] == leaves;
          Ok(CategoryNode(cats[id].name, cats[id].value, subtrees + leaves))
  }

  /** The call on a category found under `name` and not yet on the stack. */
  lemma TreeNamedFound(cats: map<nat, CategoryRow>, accts: map<nat, AccountRow>, name: string, open: set<nat>, id: nat)
    requires FindByName(cats, CategoryName, name) == Some(id) && id !in open
    ensures Subtrees(cats, accts, ChildList(cats, id), open + {id}).Err? ==>
      TreeNamed(cats, accts, name, open) == Err(Subtrees(cats, accts, ChildList(cats, id), open + {id}).error)
    ensures Subtrees(cats, accts, ChildList(cats, id), open + {id}).Ok? ==>
      TreeNamed(cats, accts, name, open) ==
      Ok(CategoryNode(cats[id].name, cats[id].value, Subtrees(cats, accts, ChildList(cats, id), open + {id}).value + AccountLeaves(accts, AccountList(accts, id))))
  {
  }

  /** The subtrees of the categories `kids`, built left to right; the first failure stops the loop. */
  function Subtrees(cats: map<nat, CategoryRow>, accts: map<nat, AccountRow>, kids: seq<nat>, open: set<nat>): (r: Result<seq<Tree>>)
    requires forall i | 0 <= i < |kids| :: kids[i] in cats
    ensures r.Err? ==> r.error == RecursionError
    ensures r.Ok? ==> |r.value| == |kids|
    ensures r.Ok? ==> forall i | 0 <= i < |kids| :: r.value[i].CategoryNode? && r.value[i].name == cats[kids[i]].name
    decreases cats.Keys - open, 1, |kids|
  {
    if kids == [] then
      Ok([])
    else
      var last := kids[|kids| - 1];
      match Subtrees(cats, accts, kids[..|kids| - 1], open)
      case Err(e) => Err(e)
      case Ok(front) =>
        match TreeNamed(cats, accts, cats[last].name, open)
        case Err(e) => Err(e)
        case Ok(t) => Ok(front + [t])
  }

  // ---------------------------------------------------------------------------
  // When the recursion ends.
  // ---------------------------------------------------------------------------

  /** Subtrees fails as soon as the tree of one of the categories does. */
  lemma {:induction false} SubtreesFailWith(cats: map<nat, CategoryRow>, accts: map<nat, AccountRow>, kids: seq<nat>, open: set<nat>, i: nat)
    requires forall j | 0 <= j < |kids| :: kids[j] in cats
    requires i < |kids| && TreeNamed(cats, accts, cats[kids[i]].name, open).Err?
    ensures Subtrees(cats, accts, kids, open).Err?
  {
    if i < |kids| - 1 {
      SubtreesFailWith(cats, accts, kids[..|kids| - 1], open, i);
    }
  }

  /** Once the subtrees of a prefix of the categories fail, the whole loop fails the same way. */
  lemma {:induction false} SubtreesPrefixFails(cats: map<nat, CategoryRow>, accts: map<nat, AccountRow>, kids: seq<nat>, open: set<nat>, i: nat)
    requires forall j | 0 <= j < |kids| :: kids[j] in cats
    requires i <= |kids| && Subtrees(cats, accts, kids[..i], open).Err?
    ensures Subtrees(cats, accts, kids, open) == Subtrees(cats, accts, kids[..i], open)
    decreases |kids| - i
  {
    if i < |kids| {
      assert kids[..i + 1][..i] == kids[..i];
      SubtreesPrefixFails(cats, accts, kids, open, i + 1);
    } else {
      assert kids[..i] == kids;
    }
  }

  /** One turn of the loop over the child categories: append the next subtree, or stop with its error. */
  lemma SubtreesStep(cats: map<nat, CategoryRow>, accts: map<nat, AccountRow>, kids: seq<nat>, open: set<nat>, i: nat, front: seq<Tree>)
    requires forall j | 0 <= j < |kids| :: kids[j] in cats
    requires i < |kids| && Subtrees(cats, accts, kids[..i], open) == Ok(front)
    ensures TreeNamed(cats, accts, cats[kids[i]].name, open).Ok? ==>
      Subtrees(cats, accts, kids[..i + 1], open) == Ok(front + [TreeNamed(cats, accts, cats[kids[i]].name, open).value])
    ensures TreeNamed(cats, accts, cats[kids[i]].name, open).Err? ==>
      Subtrees(cats, accts, kids, open) == Err(TreeNamed(cats, accts, cats[kids[i]].name, open).error)
  {
    assert kids[..i + 1][..i] == kids[..i];
    if TreeNamed(cats, accts, cats[kids[i]].name, open).Err? {
      SubtreesPrefixFails(cats, accts, kids, open, i + 1);
    }
  }

  /**
   * The tree of a category reachable from a root, called while only shallower
   * categories are on the stack, is built without error; in particular the
   * top-level call on any reachable category succeeds.
   */
  lemma {:induction false} ReachableTreeOk(cats: map<nat, CategoryRow>, accts: map<nat, AccountRow>, c: nat, open: set<nat>)
    requires NamesUnique(cats, CategoryName) && c in cats && Reachable(cats, c)
    requires open <= Reached(cats, Depth(cats, c))
    ensures TreeNamed(cats, accts, cats[c].name, open).Ok?
    decreases cats.Keys - open, 0
  {
    FindOwnName(cats, CategoryName, c);
    var k := Depth(cats, c);
    ReachedIsLevelsBelow(cats, k);
    var kids := ChildList(cats, c);
    forall i | 0 <= i < |kids|
      ensures kids[i] in cats && kids[i] in Level(cats, k + 1)
    {
    }
    SubtreesOk(cats, accts, kids, open + {c}, k + 1);
  }

  lemma {:induction false} SubtreesOk(cats: map<nat, CategoryRow>, accts: map<nat, AccountRow>, kids: seq<nat>, open: set<nat>, k: nat)
    requires NamesUnique(cats, CategoryName)
    requires forall i | 0 <= i < |kids| :: kids[i] in cats && kids[i] in Level(cats, k)
    requires open <= Reached(cats, k)
    ensures Subtrees(cats, accts, kids, open).Ok?
    decreases cats.Keys - open, 1, |kids|
  {
    if kids != [] {
      var last := kids[|kids| - 1];
      SubtreesOk(cats, accts, kids[..|kids| - 1], open, k);
      DepthOfLevel(cats, last, k);
      ReachableTreeOk(cats, accts, last, open);
    }
  }

  /** `a` is the `n`-th ancestor of `x` through the `parent_id` links. */
  ghost predicate AncestorAt(cats: map<nat, CategoryRow>, a: nat, x: nat, n: nat)
    decreases n
  {
    if n == 0 then a == x else exists y | y in ChildIdsOf(cats, a) :: AncestorAt(cats, y, x, n - 1)
  }

  /** The descendants of a reachable category are reachable, `n` levels deeper. */
  lemma {:induction false} AncestorDepth(cats: map<nat, CategoryRow>, a: nat, x: nat, n: nat)
    requires Reachable(cats, a) && AncestorAt(cats, a, x, n)
    ensures Reachable(cats, x) && Depth(cats, x) == Depth(cats, a) + n
    decreases n
  {
    if n > 0 {
      var y :| y in ChildIdsOf(cats, a) && AncestorAt(cats, y, x, n - 1);
      ChildDepth(cats, a, y);
      AncestorDepth(cats, y, x, n - 1);
    }
  }

  /**
   * A category on a parent cycle is not reachable from a root: the CTE never
   * lists it and the roll-up leaves it at 0.
   */
  lemma CycleUnreachable(cats: map<nat, CategoryRow>, c: nat, n: nat)
    requires n > 0 && AncestorAt(cats, c, c, n)
    ensures !Reachable(cats, c)
  {
    if Reachable(cats, c) {
      AncestorDepth(cats, c, c, n);
    }
  }

  /** The tree of `id` fails when the tree of one of its child categories does. */
  lemma ChildFails(cats: map<nat, CategoryRow>, accts: map<nat, AccountRow>, id: nat, y: nat, open: set<nat>)
    requires NamesUnique(cats, CategoryName) && id in cats && y in ChildIdsOf(cats, id)
    requires TreeNamed(cats, accts, cats[y].name, open + {id}).Err?
    ensures TreeNamed(cats, accts, cats[id].name, open) == Err(RecursionError)
  {
    FindOwnName(cats, CategoryName, id);
    if id !in open {
      var kids := ChildList(cats, id);
      assert y in kids;
      var i :| 0 <= i < |kids| && kids[i] == y;
      SubtreesFailWith(cats, accts, kids, open + {id}, i);
    }
  }

  /** A call that would reach a category still on the stack fails. */
  lemma {:induction false} ReachOpenFails(cats: map<nat, CategoryRow>, accts: map<nat, AccountRow>, id: nat, o: nat, n: nat, open: set<nat>)
    requires NamesUnique(cats, CategoryName) && id in cats && o in open && AncestorAt(cats, id, o, n)
    ensures TreeNamed(cats, accts, cats[id].name, open) == Err(RecursionError)
    decreases n
  {
    FindOwnName(cats, CategoryName, id);
    if n > 0 {
      var y :| y in ChildIdsOf(cats, id) && AncestorAt(cats, y, o, n - 1);
      ReachOpenFails(cats, accts, y, o, n - 1, open + {id});
      ChildFails(cats, accts, id, y, open);
    }
  }

  /**
   * get_category_tree on a category of a parent cycle recurses without end:
   * Python stops it with a RecursionError.
   */
  lemma CycleTreeFails(cats: map<nat, CategoryRow>, accts: map<nat, AccountRow>, c: nat, n: nat)
    requires NamesUnique(cats, CategoryName) && c in cats && n > 0 && AncestorAt(cats, c, c, n)
    ensures TreeNamed(cats, accts, cats[c].name, {}) == Err(RecursionError)
  {
    var y :| y in ChildIdsOf(cats, c) && AncestorAt(cats, y, c, n - 1);
    var open: set<nat> := {};
    assert open + {c} == {c};
    ReachOpenFails(cats, accts, y, c, n - 1, open + {c});
    ChildFails(cats, accts, c, y, open);
  }

  // ---------------------------------------------------------------------------
  // The values in the tree.
  // ---------------------------------------------------------------------------

  /** The sum of the values of the nodes `ts`, left to right. */
  function ValuesTotal(ts: seq<Tree>): real
  {
    if ts == [] then 0.0 else ValuesTotal(ts[..|ts| - 1]) + ts[|ts| - 1].value
  }

  lemma {:induction false} ValuesTotalConcat(a: seq<Tree>, b: seq<Tree>)
    ensures ValuesTotal(a + b) == ValuesTotal(a) + ValuesTotal(b)
  {
    if b != [] {
      assert (a + b)[..|a + b| - 1] == a + b[..|b| - 1];
      assert (a + b)[|a + b| - 1] == b[|b| - 1];
      ValuesTotalConcat(a, b[..|b| - 1]);
    } else {
      assert a + b == a;
    }
  }

  lemma {:induction false} LeavesTotal(accts: map<nat, AccountRow>, ids: seq<nat>)
    requires forall i | 0 <= i < |ids| :: ids[i] in accts
    ensures ValuesTotal(AccountLeaves(accts, ids)) == AccountsTotal(accts, ids)
  {
    if ids != [] {
      LeavesTotal(accts, ids[..|ids| - 1]);
      assert AccountLeaves(accts, ids)[..|ids| - 1] == AccountLeaves(accts, ids[..|ids| - 1]);
    }
  }

  /** Under the UNIQUE constraint each subtree carries the stored value of its category. */
  lemma {:induction false} SubtreesTotal(cats: map<nat, CategoryRow>, accts: map<nat, AccountRow>, kids: seq<nat>, open: set<nat>)
    requires NamesUnique(cats, CategoryName)
    requires forall i | 0 <= i < |kids| :: kids[i] in cats
    requires Subtrees(cats, accts, kids, open).Ok?
    ensures ValuesTotal(Subtrees(cats, accts, kids, open).value) == CategoriesTotal(cats, kids)
  {
    if kids != [] {
      var last := kids[|kids| - 1];
      var front := Subtrees(cats, accts, kids[..|kids| - 1], open).value;
      SubtreesTotal(cats, accts, kids[..|kids| - 1], open);
      FindOwnName(cats, CategoryName, last);
      var t := TreeNamed(cats, accts, cats[last].name, open).value;
      assert Subtrees(cats, accts, kids, open).value == front + [t];
      assert (front + [t])[..|front|] == front;
    }
  }

  /**
   * After the roll-up, the node of a reachable category holds the sum of the
   * values of its children: its child categories' nodes and its account leaves.
   */
  lemma TreeValueIsChildrenTotal(cats: map<nat, CategoryRow>, accts: map<nat, AccountRow>, c: nat, open: set<nat>)
    requires NamesUnique(cats, CategoryName) && RolledUp(cats, accts)
    requires c in cats && Reachable(cats, c)
    requires TreeNamed(cats, accts, cats[c].name, open).Ok?
    ensures TreeNamed(cats, accts, cats[c].name, open).value.value == ValuesTotal(TreeNamed(cats, accts, cats[c].name, open).value.children)
  {
    FindOwnName(cats, CategoryName, c);
    assert c !in open;
    var kids := ChildList(cats, c);
    var subtrees := Subtrees(cats, accts, kids, open + {c}).value;
    var leaves := AccountLeaves(accts, AccountList(accts, c));
    assert TreeNamed(cats, accts, cats[c].name, open).value.children == subtrees + leaves;
    ValuesTotalConcat(subtrees, leaves);
    SubtreesTotal(cats, accts, kids, open + {c});
    LeavesTotal(accts, AccountList(accts, c));
  }
}
