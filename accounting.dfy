/**
 * The in-memory Category/Account composite of models/accounting.py,
 * financial/accounting.py and main.py. Python objects are modelled as a
 * growing sequence of objects whose index is the object's identity; a
 * category's `children` list holds such handles, so a list can be appended
 * to in place and an object can sit in several lists, or in its own subtree.
 */
module Accounting {
  import opened Wrappers
  import opened Tables
  import opened Rollup
  import opened Trees
  import DbLayer

  /** What `parent.add_child(...)` raises when the parent is an Account. */
  const AccountHasNoAddChild := "'Account' object has no attribute 'add_child'"

  /** What `category.add_child(self)` raises when the category is None. */
  const NoneHasNoAddChild := "'NoneType' object has no attribute 'add_child'"

  /** What `self.parent.name` raises for a category without a parent. */
  const NoneHasNoName := "'NoneType' object has no attribute 'name'"

  /** What `assets.to_dict()` raises when it is handed an Account. */
  const AccountHasNoToDict := "'Account' object has no attribute 'to_dict'"

  /** The ValueError of print_balance_sheet in models/accounting.py. */
  const NeedSources := "Either 'sqlite_db' or both 'assets' and 'liabilities' must be provided"

  /** A Category or an Account object; handles are indices into the object sequence. */
  datatype Obj =
    | CategoryObj(name: string, value: real, parent: Option<nat>, children: seq<nat>, description: string)
    | AccountObj(name: string, value: real, category: nat, remarks: Option<string>)

  /** The dicts to_dict builds: `{name, value, children}` for a category, `{name, value}` for an account. */
  datatype Dict =
    | CategoryDict(name: string, value: real, children: seq<Dict>)
    | AccountDict(name: string, value: real)

  /** A cell of a CSV row: a string, a number, or None. */
  datatype Field = Str(text: string) | Num(number: real) | Null

  type Row = seq<Field>

  // ---------------------------------------------------------------------------
  // The object graph.
  // ---------------------------------------------------------------------------

  /** Every handle `x` holds is below `n`. */
  predicate RefsBelow(x: Obj, n: nat)
  {
    match x
    case CategoryObj(_, _, parent, children, _) =>
      (parent.Some? ==> parent.value < n) && forall i | 0 <= i < |children| :: children[i] < n
    case AccountObj(_, _, category, _) => category < n
  }

  /** Every handle held by an object names an object: Python references are never dangling. */
  predicate Closed(objs: seq<Obj>)
  {
    forall h | 0 <= h < |objs| :: RefsBelow(objs[h], |objs|)
  }

  /** All handles of the graph. */
  function Handles(objs: seq<Obj>): set<nat>
  {
    Below(|objs|)
  }

  /** The naturals below `n`. */
  function Below(n: nat): (r: set<nat>)
    ensures forall h: nat :: h in r <==> h < n
  {
    if n == 0 then {} else Below(n - 1) + {n - 1}
  }

  /**
   * Every child was created after its parent. The constructors keep this,
   * because a new object is only ever added to the children of an older one;
   * it rules out cycles.
   */
  ghost predicate Ordered(objs: seq<Obj>)
  {
    forall h, i | 0 <= h < |objs| && objs[h].CategoryObj? && 0 <= i < |objs[h].children| :: h < objs[h].children[i]
  }

  /** A new object `x` created as the last child of category `c`. */
  function Adopt(objs: seq<Obj>, c: nat, x: Obj): seq<Obj>
    requires c < |objs| && objs[c].CategoryObj?
  {
    objs[c := objs[c].(children := objs[c].children + [|objs|])] + [x]
  }

  /** `x` with its stored `value` replaced. */
  function WithValue(x: Obj, v: real): Obj
  {
    match x
    case CategoryObj(name, _, parent, children, description) => CategoryObj(name, v, parent, children, description)
    case AccountObj(name, _, category, remarks) => AccountObj(name, v, category, remarks)
  }

  /** What `x` adds to the calculated value of the category that adopts it. */
  function Contribution(x: Obj): real
  {
    if x.AccountObj? then x.value else 0.0
  }

  lemma AdoptKeepsClosed(objs: seq<Obj>, c: nat, x: Obj)
    requires Closed(objs) && c < |objs| && objs[c].CategoryObj?
    requires RefsBelow(x, |objs|)
    ensures Closed(Adopt(objs, c, x))
  {
    var objs' := Adopt(objs, c, x);
    forall h | 0 <= h < |objs'|
      ensures RefsBelow(objs'[h], |objs'|)
    {
      if h < |objs| && h != c {
        assert objs'[h] == objs[h];
      }
    }
  }

  lemma AdoptKeepsOrdered(objs: seq<Obj>, c: nat, x: Obj)
    requires c < |objs| && objs[c].CategoryObj?
    requires Ordered(objs) && (x.CategoryObj? ==> x.children == [])
    ensures Ordered(Adopt(objs, c, x))
  {
    var objs' := Adopt(objs, c, x);
    forall h, i | 0 <= h < |objs'| && objs'[h].CategoryObj? && 0 <= i < |objs'[h].children|
      ensures h < objs'[h].children[i]
    {
      if h < |objs| && h != c {
        assert objs'[h] == objs[h];
      }
    }
  }

  // ---------------------------------------------------------------------------
  // calculate_value and to_dict. `open` holds the categories whose call is
  // still on the stack: meeting one again is the endless recursion that ends
  // in a RecursionError.
  // ---------------------------------------------------------------------------

  /**
   * Category.calculate_value(): the sum over the children, a category child
   * through its own calculate_value and an account child by its value. The
   * category's own `value` field takes no part.
   */
  function CategoryValue(objs: seq<Obj>, h: nat, open: set<nat>): (r: Result<real>)
    requires Closed(objs) && h < |objs| && objs[h].CategoryObj?
    ensures r.Err? ==> r.error == RecursionError
    ensures h !in open && objs[h].children == [] ==> r == Ok(0.0)
    decreases Handles(objs) - open, 0
  {
    if h in open then Err(RecursionError)
    else ChildrenValue(objs, objs[h].children, open + {h})
  }

  /** The loop of calculate_value over `kids`, left to right. */
  function ChildrenValue(objs: seq<Obj>, kids: seq<nat>, open: set<nat>): (r: Result<real>)
    requires Closed(objs) && forall i | 0 <= i < |kids| :: kids[i] < |objs|
    ensures r.Err? ==> r.error == RecursionError
    decreases Handles(objs) - open, 1, |kids|
  {
    if kids == [] then Ok(0.0)
    else
      var last := kids[|kids| - 1];
      match ChildrenValue(objs, kids[..|kids| - 1], open)
      case Err(e) => Err(e)
      case Ok(front) =>
        if objs[last].AccountObj? then Ok(front + objs[last].value)
        else
          match CategoryValue(objs, last, open)
          case Err(e) => Err(e)
          case Ok(v) => Ok(front + v)
  }

  /** `d` is the entry to_dict appends for child `k`. */
  predicate ChildEntry(objs: seq<Obj>, k: nat, d: Dict)
    requires k < |objs|
  {
    && (objs[k].AccountObj? ==> d == AccountDict(objs[k].name, objs[k].value))
    && (objs[k].CategoryObj? ==> d.CategoryDict? && d.name == objs[k].name)
  }

  /**
   * Category.to_dict(): the category's name, its calculated value, and one
   * entry per child in the order of `children`: the child's own dict for a
   * category, `{name, value}` for an account.
   */
  function DictOf(objs: seq<Obj>, h: nat, open: set<nat>): (r: Result<Dict>)
    requires Closed(objs) && h < |objs| && objs[h].CategoryObj?
    ensures r.Err? ==> r.error == RecursionError
    ensures r.Ok? ==> r.value.CategoryDict? && r.value.name == objs[h].name
    ensures r.Ok? ==> |r.value.children| == |objs[h].children|
    ensures r.Ok? ==> forall i | 0 <= i < |objs[h].children| :: ChildEntry(objs, objs[h].children[i], r.value.children[i])
    decreases Handles(objs) - open, 0
  {
    if h in open then Err(RecursionError)
    else
      match CategoryValue(objs, h, open)
      case Err(e) => Err(e)
      case Ok(v) =>
        match ChildDicts(objs, objs[h].children, open + {h})
        case Err(e) => Err(e)
        case Ok(entries) => Ok(CategoryDict(objs[h].name, v, entries))
  }

  /** The loop of to_dict over `kids`, left to right. */
  function ChildDicts(objs: seq<Obj>, kids: seq<nat>, open: set<nat>): (r: Result<seq<Dict>>)
    requires Closed(objs) && forall i | 0 <= i < |kids| :: kids[i] < |objs|
    ensures r.Err? ==> r.error == RecursionError
    ensures r.Ok? ==> |r.value| == |kids| && forall i | 0 <= i < |kids| :: ChildEntry(objs, kids[i], r.value[i])
    decreases Handles(objs) - open, 1, |kids|
  {
    if kids == [] then Ok([])
    else
      var last := kids[|kids| - 1];
      match ChildDicts(objs, kids[..|kids| - 1], open)
      case Err(e) => Err(e)
      case Ok(front) =>
        if objs[last].AccountObj? then Ok(front + [AccountDict(objs[last].name, objs[last].value)])
        else
          match DictOf(objs, last, open)
          case Err(e) => Err(e)
          case Ok(d) => Ok(front + [d])
  }

  /** The total of a concatenation of children is the sum of the totals of the parts. */
  lemma {:induction false} ChildrenValueConcat(objs: seq<Obj>, a: seq<nat>, b: seq<nat>, open: set<nat>)
    requires Closed(objs)
    requires forall i | 0 <= i < |a| :: a[i] < |objs|
    requires forall i | 0 <= i < |b| :: b[i] < |objs|
    ensures ChildrenValue(objs, a + b, open).Ok? <==> ChildrenValue(objs, a, open).Ok? && ChildrenValue(objs, b, open).Ok?
    ensures ChildrenValue(objs, a + b, open).Ok? ==>
      ChildrenValue(objs, a + b, open).value == ChildrenValue(objs, a, open).value + ChildrenValue(objs, b, open).value
    decreases |b|
  {
    if b == [] {
      assert a + b == a;
    } else {
      var b' := b[..|b| - 1];
      assert (a + b)[..|a + b| - 1] == a + b';
      ChildrenValueConcat(objs, a, b', open);
    }
  }

  /** A graph built by the constructors alone has no cycle, so calculate_value never fails on it. */
  lemma OrderedValueOk(objs: seq<Obj>, h: nat)
    requires Closed(objs) && Ordered(objs) && h < |objs| && objs[h].CategoryObj?
    ensures CategoryValue(objs, h, {}).Ok?
  {
    OrderedCategoryValue(objs, h, {});
  }

  lemma {:induction false} OrderedCategoryValue(objs: seq<Obj>, h: nat, open: set<nat>)
    requires Closed(objs) && Ordered(objs) && h < |objs| && objs[h].CategoryObj?
    requires forall o | o in open :: o < h
    ensures CategoryValue(objs, h, open).Ok?
    decreases |objs| - h, 1
  {
    OrderedChildrenValue(objs, objs[h].children, open + {h}, h);
  }

  lemma {:induction false} OrderedChildrenValue(objs: seq<Obj>, kids: seq<nat>, open: set<nat>, bound: nat)
    requires Closed(objs) && Ordered(objs)
    requires forall i | 0 <= i < |kids| :: bound < kids[i] < |objs|
    requires forall o | o in open :: o <= bound
    ensures ChildrenValue(objs, kids, open).Ok?
    decreases |objs| - bound, 0, |kids|
  {
    if kids != [] {
      var last := kids[|kids| - 1];
      OrderedChildrenValue(objs, kids[..|kids| - 1], open, bound);
      if objs[last].CategoryObj? {
        OrderedCategoryValue(objs, last, open);
      }
    }
  }

  /** Changing the stored `value` of a category changes no calculated value. */
  lemma {:induction false} OwnValueIgnored(objs: seq<Obj>, c: nat, v: real, h: nat, open: set<nat>)
    requires Closed(objs) && c < |objs| && objs[c].CategoryObj?
    requires h < |objs| && objs[h].CategoryObj?
    ensures Closed(objs[c := WithValue(objs[c], v)])
    ensures CategoryValue(objs[c := WithValue(objs[c], v)], h, open) == CategoryValue(objs, h, open)
    decreases Handles(objs) - open, 0
  {
    var objs' := objs[c := WithValue(objs[c], v)];
    assert forall k | 0 <= k < |objs| :: RefsBelow(objs'[k], |objs|) by {
      forall k | 0 <= k < |objs| ensures RefsBelow(objs'[k], |objs|) {
        assert k != c ==> objs'[k] == objs[k];
      }
    }
    if h !in open {
      ChildrenOwnValueIgnored(objs, c, v, objs[h].children, open + {h});
    }
  }

  lemma {:induction false} ChildrenOwnValueIgnored(objs: seq<Obj>, c: nat, v: real, kids: seq<nat>, open: set<nat>)
    requires Closed(objs) && c < |objs| && objs[c].CategoryObj?
    requires forall i | 0 <= i < |kids| :: kids[i] < |objs|
    requires Closed(objs[c := WithValue(objs[c], v)])
    ensures ChildrenValue(objs[c := WithValue(objs[c], v)], kids, open) == ChildrenValue(objs, kids, open)
    decreases Handles(objs) - open, 1, |kids|
  {
    if kids != [] {
      var last := kids[|kids| - 1];
      ChildrenOwnValueIgnored(objs, c, v, kids[..|kids| - 1], open);
      if objs[last].CategoryObj? {
        OwnValueIgnored(objs, c, v, last, open);
      }
    }
  }

  /**
   * A new object added as the last child of category `c` adds its
   * contribution to `c`'s calculated value: an account its value, a new
   * category nothing.
   */
  lemma AdoptAddsContribution(objs: seq<Obj>, c: nat, x: Obj, open: set<nat>)
    requires Closed(objs) && c < |objs| && objs[c].CategoryObj? && c !in open
    requires RefsBelow(x, |objs| + 1) && (x.CategoryObj? ==> x.children == [])
    requires forall o | o in open :: o < |objs|
    ensures Closed(Adopt(objs, c, x))
    ensures CategoryValue(Adopt(objs, c, x), c, open).Ok? <==> CategoryValue(objs, c, open).Ok?
    ensures CategoryValue(objs, c, open).Ok? ==>
      CategoryValue(Adopt(objs, c, x), c, open).value == CategoryValue(objs, c, open).value + Contribution(x)
  {
    var objs' := Adopt(objs, c, x);
    assert Closed(objs') by {
      forall h | 0 <= h < |objs'|
        ensures RefsBelow(objs'[h], |objs'|)
      {
        if h < |objs| && h != c {
          assert objs'[h] == objs[h];
        }
      }
    }
    var kids := objs[c].children;
    assert objs'[c].children == kids + [|objs|];
    assert (kids + [|objs|])[..|kids|] == kids;
    AdoptChildrenFrame(objs, c, x, kids, open + {c});
  }

  /** While `c` is on the stack, adopting a child under it changes no calculated value. */
  lemma {:induction false} AdoptFrame(objs: seq<Obj>, c: nat, x: Obj, h: nat, open: set<nat>)
    requires Closed(objs) && c < |objs| && objs[c].CategoryObj? && c in open
    requires Closed(Adopt(objs, c, x))
    requires h < |objs| && objs[h].CategoryObj?
    ensures CategoryValue(Adopt(objs, c, x), h, open) == CategoryValue(objs, h, open)
    decreases Handles(objs) - open, 0
  {
    if h !in open {
      assert Adopt(objs, c, x)[h] == objs[h];
      AdoptChildrenFrame(objs, c, x, objs[h].children, open + {h});
    }
  }

  lemma {:induction false} AdoptChildrenFrame(objs: seq<Obj>, c: nat, x: Obj, kids: seq<nat>, open: set<nat>)
    requires Closed(objs) && c < |objs| && objs[c].CategoryObj? && c in open
    requires Closed(Adopt(objs, c, x))
    requires forall i | 0 <= i < |kids| :: kids[i] < |objs|
    ensures ChildrenValue(Adopt(objs, c, x), kids, open) == ChildrenValue(objs, kids, open)
    decreases Handles(objs) - open, 1, |kids|
  {
    if kids != [] {
      var last := kids[|kids| - 1];
      AdoptChildrenFrame(objs, c, x, kids[..|kids| - 1], open);
      if last != c {
        assert Adopt(objs, c, x)[last] == objs[last];
        if objs[last].CategoryObj? {
          AdoptFrame(objs, c, x, last, open);
        }
      }
    }
  }

  /**
   * to_dict fails exactly when calculate_value does, and the value it reports
   * is the calculated one.
   */
  lemma {:induction false} DictAgreesWithValue(objs: seq<Obj>, h: nat, open: set<nat>)
    requires Closed(objs) && h < |objs| && objs[h].CategoryObj?
    ensures DictOf(objs, h, open).Ok? <==> CategoryValue(objs, h, open).Ok?
    ensures DictOf(objs, h, open).Ok? ==> DictOf(objs, h, open).value.value == CategoryValue(objs, h, open).value
    decreases Handles(objs) - open, 0
  {
    if h !in open {
      ChildDictsAgree(objs, objs[h].children, open + {h});
    }
  }

  lemma {:induction false} ChildDictsAgree(objs: seq<Obj>, kids: seq<nat>, open: set<nat>)
    requires Closed(objs) && forall i | 0 <= i < |kids| :: kids[i] < |objs|
    ensures ChildDicts(objs, kids, open).Ok? <==> ChildrenValue(objs, kids, open).Ok?
    decreases Handles(objs) - open, 1, |kids|
  {
    if kids != [] {
      var last := kids[|kids| - 1];
      ChildDictsAgree(objs, kids[..|kids| - 1], open);
      if objs[last].CategoryObj? {
        DictAgreesWithValue(objs, last, open);
      }
    }
  }

  /** When the whole loop of to_dict succeeds, so does the dict of each category child. */
  lemma {:induction false} ChildDictsOkAt(objs: seq<Obj>, kids: seq<nat>, open: set<nat>, i: nat)
    requires Closed(objs) && forall j | 0 <= j < |kids| :: kids[j] < |objs|
    requires i < |kids| && objs[kids[i]].CategoryObj? && ChildDicts(objs, kids, open).Ok?
    ensures DictOf(objs, kids[i], open).Ok?
    decreases |kids|
  {
    if i < |kids| - 1 {
      ChildDictsOkAt(objs, kids[..|kids| - 1], open, i);
    }
  }

  // ---------------------------------------------------------------------------
  // Rows for the CSV files and the net worth of the balance sheet.
  // ---------------------------------------------------------------------------

  /** Account.to_csv_row(): `[name, value, category.name, remarks]`. */
  function AccountCsvRow(objs: seq<Obj>, h: nat): (r: Row)
    requires Closed(objs) && h < |objs| && objs[h].AccountObj?
    ensures |r| == 4 && r[0] == Str(objs[h].name) && r[1] == Num(objs[h].value)
    ensures r[2] == Str(objs[objs[h].category].name)
    ensures r[3] == if objs[h].remarks.Some? then Str(objs[h].remarks.value) else Null
  {
    var a := objs[h];
    [Str(a.name), Num(a.value), Str(objs[a.category].name), if a.remarks.Some? then Str(a.remarks.value) else Null]
  }

  /** Category.to_csv_row() of financial/accounting.py: `[name, value, parent.name, description]`; a root has no parent to name. */
  function CategoryCsvRow(objs: seq<Obj>, h: nat): (r: Result<Row>)
    requires Closed(objs) && h < |objs| && objs[h].CategoryObj?
    ensures r.Err? <==> objs[h].parent.None?
    ensures r.Err? ==> r.error == AttributeError(NoneHasNoName)
    ensures r.Ok? ==> |r.value| == 4 && r.value[0] == Str(objs[h].name) && r.value[1] == Num(objs[h].value)
    ensures r.Ok? ==> r.value[2] == Str(objs[objs[h].parent.value].name) && r.value[3] == Str(objs[h].description)
  {
    var c := objs[h];
    if c.parent.None? then Err(AttributeError(NoneHasNoName))
    else Ok([Str(c.name), Num(c.value), Str(objs[c.parent.value].name), Str(c.description)])
  }

  /**
   * The net worth of print_balance_sheet over objects: the value of
   * `assets.to_dict()` less that of `liabilities.to_dict()`.
   */
  function NetWorth(objs: seq<Obj>, assets: nat, liabilities: nat): (r: Result<real>)
    requires Closed(objs) && assets < |objs| && liabilities < |objs|
  {
    if objs[assets].AccountObj? then Err(AttributeError(AccountHasNoToDict))
    else
      match DictOf(objs, assets, {})
      case Err(e) => Err(e)
      case Ok(assetsDict) =>
        if objs[liabilities].AccountObj? then Err(AttributeError(AccountHasNoToDict))
        else
          match DictOf(objs, liabilities, {})
          case Err(e) => Err(e)
          case Ok(liabilitiesDict) => Ok(assetsDict.value - liabilitiesDict.value)
  }

  /**
   * The net worth is the calculated value of the assets less that of the
   * liabilities, and on a graph built by the constructors it is always
   * defined for two categories.
   */
  lemma NetWorthIsValueDifference(objs: seq<Obj>, assets: nat, liabilities: nat)
    requires Closed(objs) && assets < |objs| && liabilities < |objs|
    ensures NetWorth(objs, assets, liabilities).Ok? ==>
      && objs[assets].CategoryObj? && objs[liabilities].CategoryObj?
      && CategoryValue(objs, assets, {}).Ok? && CategoryValue(objs, liabilities, {}).Ok?
      && NetWorth(objs, assets, liabilities).value == CategoryValue(objs, assets, {}).value - CategoryValue(objs, liabilities, {}).value
    ensures Ordered(objs) && objs[assets].CategoryObj? && objs[liabilities].CategoryObj? ==> NetWorth(objs, assets, liabilities).Ok?
  {
    if objs[assets].CategoryObj? {
      DictAgreesWithValue(objs, assets, {});
      if Ordered(objs) {
        OrderedValueOk(objs, assets);
      }
    }
    if objs[liabilities].CategoryObj? {
      DictAgreesWithValue(objs, liabilities, {});
      if Ordered(objs) {
        OrderedValueOk(objs, liabilities);
      }
    }
  }

  /** The net worth of print_balance_sheet over the database: the two tree values, assets first. */
  function TreesNetWorth(assets: Result<Tree>, liabilities: Result<Tree>): (r: Result<real>)
  {
    match assets
    case Err(e) => Err(e)
    case Ok(a) =>
      match liabilities
      case Err(e) => Err(e)
      case Ok(l) => Ok(a.value - l.value)
  }

  // ---------------------------------------------------------------------------
  // The objects themselves.
  // ---------------------------------------------------------------------------

  class ObjectGraph {
    /** Every Category and Account object created so far; a handle is an index. */
    var objects: seq<Obj>

    constructor ()
      ensures objects == []
    {
      objects := [];
    }

    /**
     * Category(name, value, parent, description): a new category with no
     * children, appended to the end of its parent's children. A parent that
     * is an Account has no add_child.
     */
    method NewCategory(name: string, value: real, parent: Option<nat>, description: string) returns (r: Result<nat>)
      requires Closed(objects) && (parent.Some? ==> parent.value < |objects|)
      modifies this
      ensures Closed(objects)
      ensures parent.Some? && old(objects)[parent.value].AccountObj? ==>
        r == Err(AttributeError(AccountHasNoAddChild)) && objects == old(objects)
      ensures parent.None? ==>
        r == Ok(|old(objects)|) && objects == old(objects) + [CategoryObj(name, value, None, [], description)]
      ensures parent.Some? && old(objects)[parent.value].CategoryObj? ==>
        && r == Ok(|old(objects)|)
        && objects == Adopt(old(objects), parent.value, CategoryObj(name, value, parent, [], description))
        && objects[parent.value].children == old(objects)[parent.value].children + [r.value]
      ensures old(Ordered(objects)) ==> Ordered(objects)
    {
      var x := CategoryObj(name, value, parent, [], description);
      if parent.None? {
        forall h | 0 <= h < |objects| + 1
          ensures RefsBelow((objects + [x])[h], |objects| + 1)
        {
          if h < |objects| {
            assert (objects + [x])[h] == objects[h];
          }
        }
        objects := objects + [x];
        return Ok(|objects| - 1);
      }
      var p := parent.value;
      if objects[p].AccountObj? {
        return Err(AttributeError(AccountHasNoAddChild));
      }
      AdoptKeepsClosed(objects, p, x);
      if Ordered(objects) {
        AdoptKeepsOrdered(objects, p, x);
      }
      objects := Adopt(objects, p, x);
      return Ok(|objects| - 1);
    }

    /** Category.from_enum: the category named by the enum member's value, at 0, with no parent and no description. */
    method FromEnum(enumValue: string) returns (h: nat)
      requires Closed(objects)
      modifies this
      ensures Closed(objects)
      ensures h == |old(objects)| && objects == old(objects) + [CategoryObj(enumValue, 0.0, None, [], "")]
      ensures old(Ordered(objects)) ==> Ordered(objects)
    {
      var r := NewCategory(enumValue, 0.0, None, "");
      h := r.value;
    }

    /**
     * Account(name, value, category, remarks): a new account appended to the
     * end of its category's children. Neither None nor an Account has
     * add_child.
     */
    method NewAccount(name: string, value: real, category: Option<nat>, remarks: Option<string>) returns (r: Result<nat>)
      requires Closed(objects) && (category.Some? ==> category.value < |objects|)
      modifies this
      ensures Closed(objects)
      ensures category.None? ==> r == Err(AttributeError(NoneHasNoAddChild)) && objects == old(objects)
      ensures category.Some? && old(objects)[category.value].AccountObj? ==>
        r == Err(AttributeError(AccountHasNoAddChild)) && objects == old(objects)
      ensures category.Some? && old(objects)[category.value].CategoryObj? ==>
        && r == Ok(|old(objects)|)
        && objects == Adopt(old(objects), category.value, AccountObj(name, value, category.value, remarks))
        && objects[category.value].children == old(objects)[category.value].children + [r.value]
      ensures old(Ordered(objects)) ==> Ordered(objects)
    {
      if category.None? {
        return Err(AttributeError(NoneHasNoAddChild));
      }
      var c := category.value;
      if objects[c].AccountObj? {
        return Err(AttributeError(AccountHasNoAddChild));
      }
      var x := AccountObj(name, value, c, remarks);
      AdoptKeepsClosed(objects, c, x);
      if Ordered(objects) {
        AdoptKeepsOrdered(objects, c, x);
      }
      objects := Adopt(objects, c, x);
      return Ok(|objects| - 1);
    }

    /** add_child(child): `child` is appended to the end of the children; nothing else changes. */
    method AddChild(parent: nat, child: nat) returns (o: Outcome)
      requires Closed(objects) && parent < |objects| && child < |objects|
      modifies this
      ensures Closed(objects) && |objects| == |old(objects)|
      ensures old(objects)[parent].AccountObj? ==> o == Fail(AttributeError(AccountHasNoAddChild)) && objects == old(objects)
      ensures old(objects)[parent].CategoryObj? ==>
        o == Pass && objects == old(objects)[parent := old(objects)[parent].(children := old(objects)[parent].children + [child])]
      ensures old(Ordered(objects)) && parent < child ==> Ordered(objects)
    {
      if objects[parent].AccountObj? {
        return Fail(AttributeError(AccountHasNoAddChild));
      }
      var objs' := objects[parent := objects[parent].(children := objects[parent].children + [child])];
      forall h | 0 <= h < |objs'|
        ensures RefsBelow(objs'[h], |objs'|)
      {
        if h != parent {
          assert objs'[h] == objects[h];
        }
      }
      if Ordered(objects) && parent < child {
        forall h, i | 0 <= h < |objs'| && objs'[h].CategoryObj? && 0 <= i < |objs'[h].children|
          ensures h < objs'[h].children[i]
        {
          if h != parent {
            assert objs'[h] == objects[h];
          }
        }
      }
      objects := objs';
      return Pass;
    }

    /** calculate_value(): the accumulator loop over the children, recursing into category children. */
    method CalculateValue(h: nat, open: set<nat>) returns (r: Result<real>)
      requires Closed(objects) && h < |objects| && objects[h].CategoryObj?
      ensures r == CategoryValue(objects, h, open)
      decreases Handles(objects) - open, 0
    {
      if h in open {
        return Err(RecursionError);
      }
      var kids := objects[h].children;
      var value := 0.0;
      for i := 0 to |kids|
        invariant ChildrenValue(objects, kids[..i], open + {h}) == Ok(value)
      {
        var child := kids[i];
        assert kids[..i + 1][..i] == kids[..i];
        if objects[child].CategoryObj? {
          var sub := CalculateValue(child, open + {h});
          if sub.Err? {
            assert kids == kids[..i + 1] + kids[i + 1..];
            ChildrenValueConcat(objects, kids[..i + 1], kids[i + 1..], open + {h});
            return sub;
          }
          value := value + sub.value;
        } else {
          value := value + objects[child].value;
        }
      }
      assert kids[..|kids|] == kids;
      return Ok(value);
    }

    /**
     * to_dict(): the calculated value, then the loop that appends one entry
     * per child. Once calculate_value has succeeded there is no cycle below
     * the category, so no recursive call of the loop fails.
     */
    method ToDict(h: nat, open: set<nat>) returns (r: Result<Dict>)
      requires Closed(objects) && h < |objects| && objects[h].CategoryObj?
      ensures r == DictOf(objects, h, open)
      decreases Handles(objects) - open, 0
    {
      if h in open {
        return Err(RecursionError);
      }
      var value := CalculateValue(h, open);
      if value.Err? {
        return Err(value.error);
      }
      var kids := objects[h].children;
      ChildDictsAgree(objects, kids, open + {h});
      var entries: seq<Dict> := [];
      for i := 0 to |kids|
        invariant ChildDicts(objects, kids[..i], open + {h}) == Ok(entries)
      {
        var child := kids[i];
        assert kids[..i + 1][..i] == kids[..i];
        if objects[child].CategoryObj? {
          ChildDictsOkAt(objects, kids, open + {h}, i);
          var sub := ToDict(child, open + {h});
          entries := entries + [sub.value];
        } else {
          entries := entries + [AccountDict(objects[child].name, objects[child].value)];
        }
      }
      assert kids[..|kids|] == kids;
      return Ok(CategoryDict(objects[h].name, value.value, entries));
    }
  }

  /**
   * print_balance_sheet of financial/accounting.py and of main.py, up to its
   * printing: the value of `assets.to_dict()` less that of
   * `liabilities.to_dict()`.
   */
  method ObjectsNetWorth(graph: ObjectGraph, assets: nat, liabilities: nat) returns (r: Result<real>)
    requires Closed(graph.objects) && assets < |graph.objects| && liabilities < |graph.objects|
    ensures r == NetWorth(graph.objects, assets, liabilities)
  {
    if graph.objects[assets].AccountObj? {
      return Err(AttributeError(AccountHasNoToDict));
    }
    var assetsDict := graph.ToDict(assets, {});
    if assetsDict.Err? {
      return Err(assetsDict.error);
    }
    if graph.objects[liabilities].AccountObj? {
      return Err(AttributeError(AccountHasNoToDict));
    }
    var liabilitiesDict := graph.ToDict(liabilities, {});
    if liabilitiesDict.Err? {
      return Err(liabilitiesDict.error);
    }
    return Ok(assetsDict.value.value - liabilitiesDict.value.value);
  }

  /**
   * The database branch of print_balance_sheet: the trees of "Assets" and
   * "Liabilities", read one after the other; a failing "Assets" read raises
   * before "Liabilities" is read. Both trees are those of `rolled`, the
   * rolled-up table; after a RecursionError every value is left at 0.
   */
  method DbNetWorth(sqliteDb: DbLayer.SqliteDb) returns (r: Result<real>, ghost rolled: map<nat, CategoryRow>)
    requires sqliteDb.Valid()
    modifies sqliteDb
    ensures sqliteDb.Valid()
    ensures SameShape(old(sqliteDb.categories), rolled) && RolledUp(rolled, sqliteDb.accounts)
    ensures RolledUp(old(sqliteDb.categories), sqliteDb.accounts) ==> rolled == old(sqliteDb.categories)
    ensures r != Err(RecursionError) ==> sqliteDb.categories == rolled
    ensures r == Err(RecursionError) ==> sqliteDb.categories == ResetValues(old(sqliteDb.categories))
    ensures sqliteDb.accounts == old(sqliteDb.accounts) && sqliteDb.disabled == old(sqliteDb.disabled)
    ensures r == TreesNetWorth(TreeNamed(rolled, sqliteDb.accounts, "Assets", {}),
                               TreeNamed(rolled, sqliteDb.accounts, "Liabilities", {}))
  {
    var assetsTree, assetsRolled := sqliteDb.GetCategoryTree(Some("Assets"));
    rolled := assetsRolled;
    if assetsTree.Err? {
      r := Err(assetsTree.error);
      return;
    }
    var liabilitiesTree, liabilitiesRolled := sqliteDb.GetCategoryTree(Some("Liabilities"));
    RollupIsUnique(assetsRolled, liabilitiesRolled, sqliteDb.accounts);
    ResetSameShape(old(sqliteDb.categories), assetsRolled);
    r := TreesNetWorth(assetsTree, liabilitiesTree);
  }

  /**
   * print_balance_sheet of models/accounting.py, up to its printing: without
   * a database both objects are required; with one, the trees of the
   * categories "Assets" and "Liabilities" are read from it instead.
   */
  method BalanceSheetNetWorth(graph: ObjectGraph, assets: Option<nat>, liabilities: Option<nat>, sqliteDb: DbLayer.SqliteDb?)
    returns (r: Result<real>, ghost rolled: map<nat, CategoryRow>)
    requires Closed(graph.objects)
    requires assets.Some? ==> assets.value < |graph.objects|
    requires liabilities.Some? ==> liabilities.value < |graph.objects|
    requires sqliteDb != null ==> sqliteDb.Valid()
    modifies sqliteDb
    ensures sqliteDb == null && (assets.None? || liabilities.None?) ==> r == Err(ValueError(NeedSources))
    ensures sqliteDb == null && assets.Some? && liabilities.Some? ==> r == NetWorth(graph.objects, assets.value, liabilities.value)
    ensures sqliteDb != null ==>
      && sqliteDb.Valid()
      && SameShape(old(sqliteDb.categories), rolled) && RolledUp(rolled, sqliteDb.accounts)
      && (RolledUp(old(sqliteDb.categories), sqliteDb.accounts) ==> rolled == old(sqliteDb.categories))
      && (r != Err(RecursionError) ==> sqliteDb.categories == rolled)
      && (r == Err(RecursionError) ==> sqliteDb.categories == ResetValues(old(sqliteDb.categories)))
      && sqliteDb.accounts == old(sqliteDb.accounts) && sqliteDb.disabled == old(sqliteDb.disabled)
      && r == TreesNetWorth(TreeNamed(rolled, sqliteDb.accounts, "Assets", {}),
                            TreeNamed(rolled, sqliteDb.accounts, "Liabilities", {}))
  {
    rolled := map[];
    if sqliteDb == null && (assets.None? || liabilities.None?) {
      r := Err(ValueError(NeedSources));
      return;
    }
    if sqliteDb != null {
      r, rolled := DbNetWorth(sqliteDb);
    } else {
      r := ObjectsNetWorth(graph, assets.value, liabilities.value);
    }
  }
}
