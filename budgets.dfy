/**
  Budget value resolution: `Budget.get_value_of` and the `value` property of
  the three budget item classes (`BudgetItemBase`, `AtomicBudgetItem`,
  `MappedBudgetItem`).

  The database is three tables keyed by primary key. A query that returns a
  collection (the children of a classification, the mapped classifications of
  an item) returns a set, and a sum over a set adds its elements in an order
  the model leaves open; the lemmas below show the order does not change the
  sum. Because that order is a choice, the functions here are ghost.

  The resolver is written once, with a flag: `aggregate == false` is the code
  as written, where a missing item raises `DoesNotExist`; `aggregate == true`
  is the evidently intended behaviour, where a missing item is replaced by the
  sum over the classification's children.
 */
module Budgets {
  import opened Common
  import opened Classifications

  type BudgetId = string
  type ItemId = string
  type GovernmentId = string

  datatype Budget = Budget(
    name: Option<string>,
    year: int,
    subtitle: string,
    system: SystemId,
    government: GovernmentId)

  /** The concrete class of a budget item row. */
  datatype ItemKind =
    | Base     // a plain `BudgetItemBase`
    | Atomic(amount: real)
    | Mapped(mappedBudget: BudgetId, mappedClassifications: set<ClassificationId>)

  datatype BudgetItem = BudgetItem(budget: BudgetId, classification: ClassificationId, kind: ItemKind)

  datatype Db = Db(
    classifications: Table,
    budgets: map<BudgetId, Budget>,
    items: map<ItemId, BudgetItem>)

  /** `unique_together = ("budget", "classification")` on budget items. */
  ghost predicate UniqueItems(items: map<ItemId, BudgetItem>)
  {
    forall i, j :: i in items && j in items && i != j ==>
      items[i].budget != items[j].budget || items[i].classification != items[j].classification
  }

  /** Every foreign key of an item names an existing row, and items are unique. */
  ghost predicate WellFormed(db: Db)
  {
    && UniqueItems(db.items)
    && forall i :: i in db.items ==>
      && db.items[i].budget in db.budgets
      && db.items[i].classification in db.classifications
      && (db.items[i].kind.Mapped? ==>
            && db.items[i].kind.mappedBudget in db.budgets
            && db.items[i].kind.mappedClassifications <= db.classifications.Keys)
  }

  /**
    Evidence that resolution ends: a rank per budget that every mapped item
    lowers, and, for the aggregating resolver, a classification ranking bounded
    by `height`.
   */
  datatype Ranking = Ranking(budgetRank: map<BudgetId, nat>, depth: map<ClassificationId, nat>, height: nat)

  ghost predicate Sound(db: Db, rk: Ranking, aggregate: bool)
  {
    && WellFormed(db)
    && db.budgets.Keys <= rk.budgetRank.Keys
    && (forall i :: i in db.items && db.items[i].kind.Mapped? ==>
          rk.budgetRank[db.items[i].kind.mappedBudget] < rk.budgetRank[db.items[i].budget])
    && (aggregate ==>
          && Ranked(db.classifications, rk.depth)
          && forall c :: c in db.classifications ==> rk.depth[c] < rk.height)
  }

  /** How far `c` is from the bottom of the tree, for the aggregating resolver. */
  ghost function TreeMeasure(db: Db, rk: Ranking, c: ClassificationId, aggregate: bool): nat
    requires Sound(db, rk, aggregate) && c in db.classifications
  {
    if aggregate then rk.height - rk.depth[c] else 0
  }

  /** Some element of a non-empty set. */
  ghost function Pick<T>(s: set<T>): (x: T)
    requires s != {}
    ensures x in s
  {
    var x :| x in s; x
  }

  /** Adding two results: the first failure propagates. */
  function Plus(x: Result<real>, y: Result<real>): Result<real>
  {
    match x
    case Err(e) => Err(e)
    case Ok(u) =>
      match y
      case Err(e) => Err(e)
      case Ok(v) => Ok(u + v)
  }

  // ---------------------------------------------------------------------
  // BudgetItemBase.objects.get(budget=b, classification=c)

  /** The items for budget `b` and classification `c`. */
  function Matches(db: Db, b: BudgetId, c: ClassificationId): (r: set<ItemId>)
    ensures forall i :: i in r <==>
      i in db.items && db.items[i].budget == b && db.items[i].classification == c
  {
    set i | i in db.items && db.items[i].budget == b && db.items[i].classification == c
  }

  /** `.get`: the one matching row, or `DoesNotExist`, or `MultipleObjectsReturned`. */
  ghost function Get(db: Db, b: BudgetId, c: ClassificationId): (r: Result<ItemId>)
    ensures r.Ok? ==> Matches(db, b, c) == {r.value}
    ensures r == Err(DoesNotExist) <==> Matches(db, b, c) == {}
    ensures r.Err? ==> r.error == DoesNotExist || r.error == MultipleObjectsReturned
  {
    var m := Matches(db, b, c);
    if m == {} then Err(DoesNotExist)
    else
      var i := Pick(m);
      if m == {i} then Ok(i) else Err(MultipleObjectsReturned)
  }

  /** With unique items, `.get` finds exactly the item for the pair, and never finds two. */
  lemma GetFindsTheItem(db: Db, b: BudgetId, c: ClassificationId)
    requires UniqueItems(db.items)
    ensures Get(db, b, c) != Err(MultipleObjectsReturned)
    ensures forall i :: i in Matches(db, b, c) ==> Get(db, b, c) == Ok(i)
  {
    var m := Matches(db, b, c);
    if m != {} {
      var i := Pick(m);
      forall j | j in m ensures j == i {
      }
      assert m == {i};
    }
  }

  // ---------------------------------------------------------------------
  // The resolver and the item values

  /**
    `Budget.get_value_of(c)` on budget `b`, as written when `aggregate` is
    false and as intended when it is true.
   */
  ghost function Resolve(db: Db, rk: Ranking, b: BudgetId, c: ClassificationId, aggregate: bool): Result<real>
    requires Sound(db, rk, aggregate) && b in db.budgets && c in db.classifications
    decreases rk.budgetRank[b], 2, TreeMeasure(db, rk, c, aggregate), 1, 0
  {
    if db.budgets[b].system != db.classifications[c].system then Err(ValueError)
    else
      match Get(db, b, c)
      case Ok(i) => ItemValue(db, rk, i, aggregate)
      case Err(e) =>
        if e == DoesNotExist && aggregate then
          SumResolved(db, rk, b, Children(db.classifications, c), aggregate, TreeMeasure(db, rk, c, aggregate))
        else
          Err(e)
  }

  /** The `value` property of item `i`, dispatched on its class. */
  ghost function ItemValue(db: Db, rk: Ranking, i: ItemId, aggregate: bool): Result<real>
    requires Sound(db, rk, aggregate) && i in db.items
    decreases rk.budgetRank[db.items[i].budget], 1, 0, 0, 0
  {
    match db.items[i].kind
    case Base => Err(NotImplemented)
    case Atomic(amount) => Ok(amount)
    case Mapped(mb, cs) => SumResolved(db, rk, mb, cs, aggregate, rk.height + 1)
  }

  /** `sum(b.get_value_of(c) for c in S)`; `bound` only measures termination. */
  ghost function SumResolved(
    db: Db, rk: Ranking, b: BudgetId, S: set<ClassificationId>, aggregate: bool, bound: nat): Result<real>
    requires Sound(db, rk, aggregate) && b in db.budgets && S <= db.classifications.Keys
    requires forall c :: c in S ==> TreeMeasure(db, rk, c, aggregate) < bound
    decreases rk.budgetRank[b], 2, bound, 0, |S|
  {
    if S == {} then Ok(0.0)
    else
      var c := Pick(S);
      Plus(Resolve(db, rk, b, c, aggregate), SumResolved(db, rk, b, S - {c}, aggregate, bound))
  }

  /** `Budget.get_value_of` as written. */
  ghost function GetValueOf(db: Db, rk: Ranking, b: BudgetId, c: ClassificationId): (r: Result<real>)
    requires Sound(db, rk, false) && b in db.budgets && c in db.classifications
    ensures r.Ok? ==> Matches(db, b, c) != {}
  {
    Resolve(db, rk, b, c, false)
  }

  /** `Budget.get_value_of` as intended: a missing item is the sum over the children. */
  ghost function GetValueOfIntended(db: Db, rk: Ranking, b: BudgetId, c: ClassificationId): Result<real>
    requires Sound(db, rk, true) && b in db.budgets && c in db.classifications
  {
    Resolve(db, rk, b, c, true)
  }

  // ---------------------------------------------------------------------
  // The sum over a set

  /** Any term can be taken out of the sum first: the order of summation does not matter. */
  lemma {:induction false} SumResolvedRemove(
    db: Db, rk: Ranking, b: BudgetId, S: set<ClassificationId>, aggregate: bool, bound: nat, x: ClassificationId)
    requires Sound(db, rk, aggregate) && b in db.budgets && S <= db.classifications.Keys
    requires forall c :: c in S ==> TreeMeasure(db, rk, c, aggregate) < bound
    requires x in S
    ensures
      var whole := SumResolved(db, rk, b, S, aggregate, bound);
      var rest := SumResolved(db, rk, b, S - {x}, aggregate, bound);
      var term := Resolve(db, rk, b, x, aggregate);
      && (whole.Ok? <==> term.Ok? && rest.Ok?)
      && (whole.Ok? ==> whole.value == term.value + rest.value)
    decreases |S|
  {
    var y := Pick(S);
    if y != x {
      SumResolvedRemove(db, rk, b, S - {y}, aggregate, bound, x);
      SumResolvedRemove(db, rk, b, S - {x}, aggregate, bound, y);
      assert S - {y} - {x} == S - {x} - {y};
    }
  }

  /** The sum succeeds exactly when every term does, and a failure is the failure of some term. */
  lemma {:induction false} SumResolvedOk(
    db: Db, rk: Ranking, b: BudgetId, S: set<ClassificationId>, aggregate: bool, bound: nat)
    requires Sound(db, rk, aggregate) && b in db.budgets && S <= db.classifications.Keys
    requires forall c :: c in S ==> TreeMeasure(db, rk, c, aggregate) < bound
    ensures SumResolved(db, rk, b, S, aggregate, bound).Ok? <==>
      forall c :: c in S ==> Resolve(db, rk, b, c, aggregate).Ok?
    ensures SumResolved(db, rk, b, S, aggregate, bound).Err? ==>
      exists c :: c in S && Resolve(db, rk, b, c, aggregate) == Err(SumResolved(db, rk, b, S, aggregate, bound).error)
    decreases |S|
  {
    if S != {} {
      var y := Pick(S);
      SumResolvedOk(db, rk, b, S - {y}, aggregate, bound);
    }
  }

  /** A sum over two classifications adds their two values. */
  lemma SumResolvedPair(
    db: Db, rk: Ranking, b: BudgetId, c1: ClassificationId, c2: ClassificationId, aggregate: bool, bound: nat)
    requires Sound(db, rk, aggregate) && b in db.budgets
    requires c1 in db.classifications && c2 in db.classifications && c1 != c2
    requires TreeMeasure(db, rk, c1, aggregate) < bound && TreeMeasure(db, rk, c2, aggregate) < bound
    requires Resolve(db, rk, b, c1, aggregate).Ok? && Resolve(db, rk, b, c2, aggregate).Ok?
    ensures SumResolved(db, rk, b, {c1, c2}, aggregate, bound) ==
      Ok(Resolve(db, rk, b, c1, aggregate).value + Resolve(db, rk, b, c2, aggregate).value)
  {
    SumResolvedRemove(db, rk, b, {c1, c2}, aggregate, bound, c1);
    assert {c1, c2} - {c1} == {c2};
    assert {c2} - {c2} == {};
  }

  // ---------------------------------------------------------------------
  // The item values

  /**
    `value` by class: the base class raises, an atomic item is its amount, a
    mapped item succeeds exactly when every mapped classification resolves in
    the mapped budget, and is 0 when it maps nothing.
   */
  lemma ItemValueByKind(db: Db, rk: Ranking, i: ItemId, aggregate: bool)
    requires Sound(db, rk, aggregate) && i in db.items
    ensures db.items[i].kind.Base? ==> ItemValue(db, rk, i, aggregate) == Err(NotImplemented)
    ensures db.items[i].kind.Atomic? ==> ItemValue(db, rk, i, aggregate) == Ok(db.items[i].kind.amount)
    ensures db.items[i].kind.Mapped? ==>
      var k := db.items[i].kind;
      && (ItemValue(db, rk, i, aggregate).Ok? <==>
            forall c :: c in k.mappedClassifications ==> Resolve(db, rk, k.mappedBudget, c, aggregate).Ok?)
      && (k.mappedClassifications == {} ==> ItemValue(db, rk, i, aggregate) == Ok(0.0))
  {
    if db.items[i].kind.Mapped? {
      var k := db.items[i].kind;
      SumResolvedOk(db, rk, k.mappedBudget, k.mappedClassifications, aggregate, rk.height + 1);
    }
  }

  /**
    A mapped item over classifications `c1` and `c2` of budget `y` is worth
    `y.get_value_of(c1) + y.get_value_of(c2)`.
   */
  lemma MappedPairValue(
    db: Db, rk: Ranking, i: ItemId, y: BudgetId, c1: ClassificationId, c2: ClassificationId, aggregate: bool)
    requires Sound(db, rk, aggregate) && i in db.items
    requires db.items[i].kind == Mapped(y, {c1, c2}) && c1 != c2
    requires Resolve(db, rk, y, c1, aggregate).Ok? && Resolve(db, rk, y, c2, aggregate).Ok?
    ensures ItemValue(db, rk, i, aggregate) ==
      Ok(Resolve(db, rk, y, c1, aggregate).value + Resolve(db, rk, y, c2, aggregate).value)
  {
    SumResolvedPair(db, rk, y, c1, c2, aggregate, rk.height + 1);
  }

  // ---------------------------------------------------------------------
  // get_value_of

  /**
    `get_value_of` as written: `ValueError` for a classification of another
    system; otherwise the value of the one item for the pair, or
    `DoesNotExist` when there is none. It never succeeds without an item.
   */
  lemma GetValueOfCases(db: Db, rk: Ranking, b: BudgetId, c: ClassificationId)
    requires Sound(db, rk, false) && b in db.budgets && c in db.classifications
    ensures db.budgets[b].system != db.classifications[c].system ==>
      GetValueOf(db, rk, b, c) == Err(ValueError)
    ensures db.budgets[b].system == db.classifications[c].system && Matches(db, b, c) == {} ==>
      GetValueOf(db, rk, b, c) == Err(DoesNotExist)
    ensures db.budgets[b].system == db.classifications[c].system ==>
      forall i :: i in Matches(db, b, c) ==> GetValueOf(db, rk, b, c) == ItemValue(db, rk, i, false)
    ensures GetValueOf(db, rk, b, c).Ok? ==> Matches(db, b, c) != {}
  {
    GetFindsTheItem(db, b, c);
  }

  /**
    `get_value_of` as intended: as written, except that a classification of
    the budget's system without an item is worth the sum over its children.
   */
  lemma GetValueOfIntendedCases(db: Db, rk: Ranking, b: BudgetId, c: ClassificationId)
    requires Sound(db, rk, true) && b in db.budgets && c in db.classifications
    ensures db.budgets[b].system != db.classifications[c].system ==>
      GetValueOfIntended(db, rk, b, c) == Err(ValueError)
    ensures db.budgets[b].system == db.classifications[c].system && Matches(db, b, c) == {} ==>
      GetValueOfIntended(db, rk, b, c) ==
        SumResolved(db, rk, b, Children(db.classifications, c), true, TreeMeasure(db, rk, c, true))
    ensures db.budgets[b].system == db.classifications[c].system ==>
      forall i :: i in Matches(db, b, c) ==> GetValueOfIntended(db, rk, b, c) == ItemValue(db, rk, i, true)
  {
    GetFindsTheItem(db, b, c);
  }

  /** With no item at `p` and a single child `l`, `p` is worth what `l` is worth. */
  lemma IntendedOneChild(db: Db, rk: Ranking, b: BudgetId, p: ClassificationId, l: ClassificationId)
    requires Sound(db, rk, true) && b in db.budgets && p in db.classifications && l in db.classifications
    requires db.budgets[b].system == db.classifications[p].system && Matches(db, b, p) == {}
    requires Children(db.classifications, p) == {l}
    ensures GetValueOfIntended(db, rk, b, p) == GetValueOfIntended(db, rk, b, l)
  {
    GetValueOfIntendedCases(db, rk, b, p);
    assert {l} - {l} == {};
  }

  /** With no item at `p` and two children `l1`, `l2` that resolve, `p` is worth their sum. */
  lemma IntendedTwoChildren(
    db: Db, rk: Ranking, b: BudgetId, p: ClassificationId, l1: ClassificationId, l2: ClassificationId)
    requires Sound(db, rk, true) && b in db.budgets && p in db.classifications
    requires l1 in db.classifications && l2 in db.classifications && l1 != l2
    requires db.budgets[b].system == db.classifications[p].system && Matches(db, b, p) == {}
    requires Children(db.classifications, p) == {l1, l2}
    requires GetValueOfIntended(db, rk, b, l1).Ok? && GetValueOfIntended(db, rk, b, l2).Ok?
    ensures GetValueOfIntended(db, rk, b, p) ==
      Ok(GetValueOfIntended(db, rk, b, l1).value + GetValueOfIntended(db, rk, b, l2).value)
  {
    GetValueOfIntendedCases(db, rk, b, p);
    assert l1 in Children(db.classifications, p) && l2 in Children(db.classifications, p);
    SumResolvedPair(db, rk, b, l1, l2, true, TreeMeasure(db, rk, p, true));
  }

  // ---------------------------------------------------------------------
  // The unreachable aggregation branch

  /**
    Budget `b` of system `s`; classification `p` has no item, its child `l`
    has the atomic item `i` of amount `a`.
   */
  function ParentWithoutItemDb(
    s: SystemId, b: BudgetId, p: ClassificationId, l: ClassificationId, i: ItemId, a: real): Db
  {
    Db(
      map[p := Classification(None, None, s, None),
          l := Classification(None, None, s, Some(p))],
      map[b := Budget(None, 2020, "", s, "")],
      map[i := BudgetItem(b, l, Atomic(a))])
  }

  function ParentWithoutItemRanking(b: BudgetId, p: ClassificationId, l: ClassificationId): Ranking
  {
    Ranking(map[b := 0], map[p := 0, l := 1], 2)
  }

  lemma ParentWithoutItemSound(
    s: SystemId, b: BudgetId, p: ClassificationId, l: ClassificationId, i: ItemId, a: real, aggregate: bool)
    requires p != l
    ensures Sound(ParentWithoutItemDb(s, b, p, l, i, a), ParentWithoutItemRanking(b, p, l), aggregate)
  {
    var db, rk := ParentWithoutItemDb(s, b, p, l, i, a), ParentWithoutItemRanking(b, p, l);
    assert UniqueItems(db.items);
    assert Ranked(db.classifications, rk.depth);
  }

  /**
    As written, `get_value_of` on a classification without an item raises
    `DoesNotExist`, even though its only child holds an item.
   */
  lemma ParentWithoutItemRaises(
    s: SystemId, b: BudgetId, p: ClassificationId, l: ClassificationId, i: ItemId, a: real)
    requires p != l
    ensures Sound(ParentWithoutItemDb(s, b, p, l, i, a), ParentWithoutItemRanking(b, p, l), false)
    ensures GetValueOf(ParentWithoutItemDb(s, b, p, l, i, a), ParentWithoutItemRanking(b, p, l), b, p)
      == Err(DoesNotExist)
  {
    var db, rk := ParentWithoutItemDb(s, b, p, l, i, a), ParentWithoutItemRanking(b, p, l);
    ParentWithoutItemSound(s, b, p, l, i, a, false);
    assert Matches(db, b, p) == {};
    GetValueOfCases(db, rk, b, p);
  }

  /** The aggregating resolver gives `p` the value of its one child: `a`. */
  lemma ParentWithoutItemAggregates(
    s: SystemId, b: BudgetId, p: ClassificationId, l: ClassificationId, i: ItemId, a: real)
    requires p != l
    ensures Sound(ParentWithoutItemDb(s, b, p, l, i, a), ParentWithoutItemRanking(b, p, l), true)
    ensures GetValueOfIntended(ParentWithoutItemDb(s, b, p, l, i, a), ParentWithoutItemRanking(b, p, l), b, p)
      == Ok(a)
  {
    var db, rk := ParentWithoutItemDb(s, b, p, l, i, a), ParentWithoutItemRanking(b, p, l);
    ParentWithoutItemSound(s, b, p, l, i, a, true);
    assert Matches(db, b, p) == {};
    assert Children(db.classifications, p) == {l};
    IntendedOneChild(db, rk, b, p, l);
    assert i in Matches(db, b, l);
    GetValueOfIntendedCases(db, rk, b, l);
    ItemValueByKind(db, rk, i, true);
  }
}
