/**
  The classification forest: `ClassificationSystem.roots`,
  `ClassificationSystem.leaves` and `Classification.level`.

  The classification table is a map from primary key to row; `parent` is a
  foreign key into the same table. Nothing in the table forces parent chains
  to end, so every function that walks them takes a `depth` ranking as
  evidence that they do (the caller's guarantee of acyclicity).
 */
module Classifications {
  import opened Common

  type SystemId = string
  type ClassificationId = string

  datatype Classification = Classification(
    name: Option<string>,
    code: Option<string>,
    system: SystemId,
    parent: Option<ClassificationId>)

  /** The classification table, keyed by primary key. */
  type Table = map<ClassificationId, Classification>

  /**
    `depth` witnesses that every parent chain ends: every parent exists and is
    ranked below its child.
   */
  ghost predicate Ranked(cs: Table, depth: map<ClassificationId, nat>)
  {
    forall c :: c in cs ==>
      && c in depth
      && (cs[c].parent.Some? ==>
            && cs[c].parent.value in cs
            && cs[c].parent.value in depth
            && depth[cs[c].parent.value] < depth[c])
  }

  /** The design invariant the table does not enforce: a parent is in its child's system. */
  ghost predicate SameSystemParents(cs: Table)
  {
    forall c :: c in cs && cs[c].parent.Some? && cs[c].parent.value in cs ==>
      cs[cs[c].parent.value].system == cs[c].system
  }

  /** The classifications of system `s`. */
  function Members(cs: Table, s: SystemId): (r: set<ClassificationId>)
    ensures forall c :: c in r <==> c in cs && cs[c].system == s
  {
    set c | c in cs && cs[c].system == s
  }

  /** `Classification.objects.filter(parent=c)`: no system filter. */
  function Children(cs: Table, c: ClassificationId): (r: set<ClassificationId>)
    ensures forall d :: d in r <==> d in cs && cs[d].parent == Some(c)
  {
    set d | d in cs && cs[d].parent == Some(c)
  }

  // ---------------------------------------------------------------------
  // Classification.level

  /**
    `Classification.level`: 0 for a parentless classification, otherwise one
    more than the parent's level. The ranking bounds it.
   */
  function Level(cs: Table, ghost depth: map<ClassificationId, nat>, c: ClassificationId): (l: nat)
    requires Ranked(cs, depth) && c in cs
    ensures l <= depth[c]
    decreases depth[c]
  {
    match cs[c].parent
    case None => 0
    case Some(p) => Level(cs, depth, p) + 1
  }

  /** The classification reached from `c` by following `parent` `k` times, if any. */
  function Ancestor(cs: Table, c: ClassificationId, k: nat): Option<ClassificationId>
    decreases k
  {
    if c !in cs then None
    else if k == 0 then Some(c)
    else match cs[c].parent
      case None => None
      case Some(p) => Ancestor(cs, p, k - 1)
  }

  /**
    The level of `c` is the number of proper ancestors it has: the parent
    chain from `c` holds exactly `Level(c) + 1` classifications.
   */
  lemma {:induction false} LevelCountsAncestors(cs: Table, depth: map<ClassificationId, nat>, c: ClassificationId)
    requires Ranked(cs, depth) && c in cs
    ensures forall k: nat :: Ancestor(cs, c, k).Some? <==> k <= Level(cs, depth, c)
    decreases depth[c]
  {
    match cs[c].parent
    case None =>
      forall k: nat ensures Ancestor(cs, c, k).Some? <==> k <= 0 {
      }
    case Some(p) =>
      LevelCountsAncestors(cs, depth, p);
      forall k: nat ensures Ancestor(cs, c, k).Some? <==> k <= Level(cs, depth, c) {
        if k > 0 {
          assert Ancestor(cs, c, k) == Ancestor(cs, p, k - 1);
        }
      }
  }

  /** A classification's level is its parent's level plus one, and 0 exactly for a root. */
  lemma LevelOfParent(cs: Table, depth: map<ClassificationId, nat>, c: ClassificationId)
    requires Ranked(cs, depth) && c in cs
    ensures Level(cs, depth, c) == 0 <==> cs[c].parent.None?
    ensures cs[c].parent.Some? ==>
      Level(cs, depth, c) == Level(cs, depth, cs[c].parent.value) + 1
  {
  }

  /** The level is a property of the table: any ranking gives the same one. */
  lemma {:induction false} LevelIndependentOfRanking(
    cs: Table, d1: map<ClassificationId, nat>, d2: map<ClassificationId, nat>, c: ClassificationId)
    requires Ranked(cs, d1) && Ranked(cs, d2) && c in cs
    ensures Level(cs, d1, c) == Level(cs, d2, c)
    decreases d1[c]
  {
    match cs[c].parent
    case None =>
    case Some(p) => LevelIndependentOfRanking(cs, d1, d2, p);
  }

  // ---------------------------------------------------------------------
  // ClassificationSystem.roots

  /**
    `ClassificationSystem.roots` as written: every parentless classification
    of the table. The system `s` takes no part in the filter.
   */
  function Roots(cs: Table, s: SystemId): (r: set<ClassificationId>)
    ensures r <= cs.Keys
    ensures SystemRoots(cs, s) <= r
  {
    set c | c in cs && cs[c].parent.None?
  }

  /** Whatever system is asked for, `Roots` answers the same set. */
  lemma RootsIgnoreSystem(cs: Table, s1: SystemId, s2: SystemId)
    ensures Roots(cs, s1) == Roots(cs, s2)
    ensures forall c :: c in Roots(cs, s1) <==> c in cs && cs[c].parent.None?
  {
  }

  /** A table with one parentless classification, of system "other". */
  function OtherSystemTable(): Table
  {
    map["r" := Classification(None, None, "other", None)]
  }

  /** The roots of system "mine" include a classification of system "other". */
  lemma RootsIncludeOtherSystems()
    ensures "r" in Roots(OtherSystemTable(), "mine")
    ensures OtherSystemTable()["r"].system != "mine"
    ensures "r" !in SystemRoots(OtherSystemTable(), "mine")
  {
  }

  /** The roots of system `s`: its parentless classifications. */
  function SystemRoots(cs: Table, s: SystemId): (r: set<ClassificationId>)
    ensures forall c :: c in r <==> c in cs && cs[c].system == s && cs[c].parent.None?
  {
    set c | c in cs && cs[c].system == s && cs[c].parent.None?
  }

  /** The classification at the end of the parent chain from `c`. */
  function Root(cs: Table, ghost depth: map<ClassificationId, nat>, c: ClassificationId): (r: ClassificationId)
    requires Ranked(cs, depth) && c in cs
    ensures r in cs && cs[r].parent.None?
    ensures SameSystemParents(cs) ==> r in SystemRoots(cs, cs[c].system)
    decreases depth[c]
  {
    match cs[c].parent
    case None => c
    case Some(p) => Root(cs, depth, p)
  }

  /** The root of `c` is its ancestor `Level(c)` steps up. */
  lemma {:induction false} RootIsTopAncestor(cs: Table, depth: map<ClassificationId, nat>, c: ClassificationId)
    requires Ranked(cs, depth) && c in cs
    ensures Ancestor(cs, c, Level(cs, depth, c)) == Some(Root(cs, depth, c))
    decreases depth[c]
  {
    match cs[c].parent
    case None =>
    case Some(p) => RootIsTopAncestor(cs, depth, p);
  }

  // ---------------------------------------------------------------------
  // ClassificationSystem.leaves

  /** Some classification of system `s` names `c` as its parent. */
  predicate HasChildIn(cs: Table, s: SystemId, c: ClassificationId)
  {
    exists d :: d in cs && cs[d].system == s && cs[d].parent == Some(c)
  }

  /**
    `ClassificationSystem.leaves`: the classifications of `s` that no
    classification of `s` names as its parent.
   */
  function Leaves(cs: Table, s: SystemId): (r: set<ClassificationId>)
    ensures r <= Members(cs, s)
  {
    set c | c in cs && cs[c].system == s && !HasChildIn(cs, s, c)
  }

  /** The parents named by classifications of system `s`. */
  function NamedParents(cs: Table, s: SystemId): (r: set<ClassificationId>)
  {
    set d | d in cs && cs[d].system == s && cs[d].parent.Some? :: cs[d].parent.value
  }

  /** The leaves of `s` are its members less the parents its members name. */
  lemma LeavesAreUnnamedMembers(cs: Table, s: SystemId)
    ensures Leaves(cs, s) == Members(cs, s) - NamedParents(cs, s)
  {
    forall c | c in Members(cs, s) - NamedParents(cs, s)
      ensures c in Leaves(cs, s)
    {
      forall d | d in cs && cs[d].system == s
        ensures cs[d].parent != Some(c)
      {
        if cs[d].parent.Some? {
          assert cs[d].parent.value in NamedParents(cs, s);
        }
      }
    }
  }

  /** A non-empty set has an element of greatest depth. */
  lemma {:induction false} DeepestExists(S: set<ClassificationId>, depth: map<ClassificationId, nat>)
    returns (m: ClassificationId)
    requires S != {} && S <= depth.Keys
    ensures m in S && forall x :: x in S ==> depth[x] <= depth[m]
    decreases S
  {
    var x :| x in S;
    if S == {x} {
      m := x;
    } else {
      var y := DeepestExists(S - {x}, depth);
      m := if depth[x] <= depth[y] then y else x;
    }
  }

  /** With acyclic parents, every system with a classification has a leaf. */
  lemma LeavesNonEmpty(cs: Table, depth: map<ClassificationId, nat>, s: SystemId)
    requires Ranked(cs, depth) && Members(cs, s) != {}
    ensures Leaves(cs, s) != {}
  {
    var m := DeepestExists(Members(cs, s), depth);
    forall d | d in cs && cs[d].system == s
      ensures cs[d].parent != Some(m)
    {
      assert depth[d] <= depth[m];
    }
    assert m in Leaves(cs, s);
  }
}
