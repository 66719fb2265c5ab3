/** Building the category forest from a flat list whose parent pointers may be missing, dangling or cyclic. */
module CategoryTree {
  import opened Prelude

  datatype Category = Category(id: string, parentId: Option<string>, name: string)

  predicate UniqueIds(cats: seq<Category>) {
    forall i, j | 0 <= i < j < |cats| :: cats[i].id != cats[j].id
  }

  // ---- the parent relation of a list ----

  /** The position, below n, of the category with this id. */
  function Find(cats: seq<Category>, id: string, n: nat): (r: Option<nat>)
    requires n <= |cats|
    ensures r.Some? ==> r.value < n && cats[r.value].id == id
    ensures r.None? ==> forall i | 0 <= i < n :: cats[i].id != id
  {
    if n == 0 then None else if cats[n - 1].id == id then Some(n - 1) else Find(cats, id, n - 1)
  }

  /** A list of parent positions; None marks a root. */
  type Parents = ps: seq<Option<nat>> | forall i | 0 <= i < |ps| && ps[i].Some? :: ps[i].value < |ps|

  /** None for a category without a parent id, with an empty one, or with one that is not listed. */
  function Parent(cats: seq<Category>, i: nat): (r: Option<nat>)
    requires i < |cats|
    ensures r.Some? ==> r.value < |cats|
  {
    var p := cats[i].parentId;
    if p.None? || p.value == "" then None else Find(cats, p.value, |cats|)
  }

  function ParentsOf(cats: seq<Category>): (r: Parents)
    ensures |r| == |cats| && forall i | 0 <= i < |cats| :: r[i] == Parent(cats, i)
  {
    seq(|cats|, i requires 0 <= i < |cats| => Parent(cats, i))
  }

  /** The positions below n with this parent, in list order. */
  function Select(ps: Parents, parent: Option<nat>, n: nat): (r: seq<nat>)
    requires n <= |ps|
    ensures forall x | x in r :: x < n
  {
    if n == 0 then [] else Select(ps, parent, n - 1) + (if ps[n - 1] == parent then [n - 1] else [])
  }

  function Children(ps: Parents, i: nat): seq<nat> {
    Select(ps, Some(i), |ps|)
  }

  function Roots(ps: Parents): seq<nat> {
    Select(ps, None, |ps|)
  }

  // ---- the imperative builder ----

  class Node {
    const cat: Category
    var children: seq<Node>

    constructor (cat: Category)
      ensures this.cat == cat && children == []
    {
      this.cat := cat;
      children := [];
    }
  }

  function Pick(nodes: seq<Node>, ix: seq<nat>): seq<Node>
    requires forall i | i in ix :: i < |nodes|
  {
    seq(|ix|, k requires 0 <= k < |ix| => assert ix[k] in ix; nodes[ix[k]])
  }

  /** One object per category; every children list and the roots are what the parent relation says. */
  ghost predicate IsForest(cats: seq<Category>, nodes: seq<Node>, roots: seq<Node>)
    reads nodes
  {
    && |nodes| == |cats|
    && (forall i, j | 0 <= i < j < |nodes| :: nodes[i] != nodes[j])
    && (forall i | 0 <= i < |nodes| :: nodes[i].cat == cats[i])
    && (forall i | 0 <= i < |nodes| :: nodes[i].children == Pick(nodes, Children(ParentsOf(cats), i)))
    && roots == Pick(nodes, Roots(ParentsOf(cats)))
  }

  method MakeNodes(cats: seq<Category>) returns (nodeOf: map<string, Node>, ghost nodes: seq<Node>)
    requires UniqueIds(cats)
    ensures |nodes| == |cats| && (forall i, j | 0 <= i < j < |nodes| :: nodes[i] != nodes[j])
    ensures forall i | 0 <= i < |nodes| :: fresh(nodes[i]) && nodes[i].cat == cats[i] && nodes[i].children == []
    ensures forall i | 0 <= i < |cats| :: cats[i].id in nodeOf && nodeOf[cats[i].id] == nodes[i]
    ensures forall id | id in nodeOf :: Find(cats, id, |cats|).Some?
  {
    nodeOf, nodes := map[], [];
    for k := 0 to |cats|
      invariant |nodes| == k && (forall i, j | 0 <= i < j < k :: nodes[i] != nodes[j])
      invariant forall i | 0 <= i < k :: fresh(nodes[i]) && nodes[i].cat == cats[i] && nodes[i].children == []
      invariant forall i | 0 <= i < k :: cats[i].id in nodeOf && nodeOf[cats[i].id] == nodes[i]
      invariant forall id | id in nodeOf :: exists i :: 0 <= i < k && cats[i].id == id
    {
      var node := new Node(cats[k]);
      nodeOf := nodeOf[cats[k].id := node];
      nodes := nodes + [node];
    }
  }

  /** The first k categories hang on their parents or on the roots. */
  ghost predicate Hung(ps: Parents, nodes: seq<Node>, roots: seq<Node>, k: nat)
    requires k <= |ps| == |nodes|
    reads nodes
  {
    && (forall i | 0 <= i < |nodes| :: nodes[i].children == Pick(nodes, Select(ps, Some(i), k)))
    && roots == Pick(nodes, Select(ps, None, k))
  }

  /** Taking one more category into account adds its node at the end of its parent's list and nowhere else. */
  lemma SelectNext(ps: Parents, nodes: seq<Node>, k: nat, p: Option<nat>)
    requires k < |ps| == |nodes|
    ensures Pick(nodes, Select(ps, p, k + 1)) == Pick(nodes, Select(ps, p, k)) + if p == ps[k] then [nodes[k]] else []
  {
    if p == ps[k] {
      assert Select(ps, p, k + 1) == Select(ps, p, k) + [k];
    }
  }

  method PushChild(ghost ps: Parents, ghost nodes: seq<Node>, ghost roots: seq<Node>, ghost k: nat, parent: Node,
      node: Node)
    requires k < |ps| == |nodes| && Hung(ps, nodes, roots, k) && node == nodes[k]
    requires forall i, j | 0 <= i < j < |nodes| :: nodes[i] != nodes[j]
    requires ps[k].Some? && parent == nodes[ps[k].value]
    modifies parent
    ensures Hung(ps, nodes, roots, k + 1)
  {
    ghost var p := ps[k].value;
    parent.children := parent.children + [node];
    forall i | 0 <= i < |nodes| ensures nodes[i].children == Pick(nodes, Select(ps, Some(i), k + 1)) {
      SelectNext(ps, nodes, k, Some(i));
      if i == p {
        assert nodes[i] == parent;
      } else {
        assert nodes[i] != nodes[p];
      }
    }
    SelectNext(ps, nodes, k, None);
  }

  lemma PushedRoot(ps: Parents, nodes: seq<Node>, roots: seq<Node>, k: nat)
    requires k < |ps| == |nodes| && Hung(ps, nodes, roots, k) && ps[k].None?
    ensures Hung(ps, nodes, roots + [nodes[k]], k + 1)
  {
    forall i | 0 <= i < |nodes| ensures nodes[i].children == Pick(nodes, Select(ps, Some(i), k + 1)) {
      SelectNext(ps, nodes, k, Some(i));
    }
    SelectNext(ps, nodes, k, None);
  }

  /** Looking the parent id up in the map finds the node of the parent position, or nothing. */
  lemma MapGivesParent(cats: seq<Category>, nodeOf: map<string, Node>, nodes: seq<Node>, k: nat)
    requires k < |cats| == |nodes|
    requires forall i | 0 <= i < |cats| :: cats[i].id in nodeOf && nodeOf[cats[i].id] == nodes[i]
    requires forall id | id in nodeOf :: Find(cats, id, |cats|).Some?
    ensures var p := cats[k].parentId;
            if p.Some? && p.value != "" && p.value in nodeOf
            then Parent(cats, k).Some? && nodeOf[p.value] == nodes[Parent(cats, k).value]
            else Parent(cats, k).None?
  {
  }

  /** `getTree`: the first loop makes the nodes, the second hangs each on its parent or on the roots. */
  method GetTree(cats: seq<Category>) returns (roots: seq<Node>, ghost nodes: seq<Node>)
    requires UniqueIds(cats)
    ensures IsForest(cats, nodes, roots) && forall i | 0 <= i < |nodes| :: fresh(nodes[i])
  {
    var nodeOf;
    nodeOf, nodes := MakeNodes(cats);
    roots := [];
    ghost var ps := ParentsOf(cats);
    for k := 0 to |cats|
      invariant Hung(ps, nodes, roots, k)
    {
      var cat := cats[k];
      var node := nodeOf[cat.id];
      MapGivesParent(cats, nodeOf, nodes, k);
      if cat.parentId.Some? && cat.parentId.value != "" {
        if cat.parentId.value in nodeOf {
          var parent := nodeOf[cat.parentId.value];
          PushChild(ps, nodes, roots, k, parent, node);
        } else {
          PushedRoot(ps, nodes, roots, k);
          roots := roots + [node];
        }
      } else {
        PushedRoot(ps, nodes, roots, k);
        roots := roots + [node];
      }
    }
  }

  // ---- what hangs where ----

  predicate Ascending(xs: seq<nat>) {
    forall a, b | 0 <= a < b < |xs| :: xs[a] < xs[b]
  }

  lemma {:induction false} SelectIsExact(ps: Parents, parent: Option<nat>, n: nat)
    requires n <= |ps|
    ensures Ascending(Select(ps, parent, n))
    ensures forall j: nat :: j in Select(ps, parent, n) <==> j < n && ps[j] == parent
    decreases n
  {
    if n > 0 {
      SelectIsExact(ps, parent, n - 1);
      var before, xs := Select(ps, parent, n - 1), Select(ps, parent, n);
      forall a, b | 0 <= a < b < |xs| ensures xs[a] < xs[b] {
        assert xs[a] == before[a] && before[a] in before;
      }
    }
  }

  /** In a list of unique ids, a category's parent is the one that its parent id names. */
  lemma ParentIffNamed(cats: seq<Category>, i: nat, j: nat)
    requires UniqueIds(cats) && i < |cats| && j < |cats|
    ensures Parent(cats, j) == Some(i) <==> cats[j].parentId == Some(cats[i].id) && cats[i].id != ""
  {
  }

  lemma PickIsExact(nodes: seq<Node>, ix: seq<nat>, j: nat)
    requires forall i | i in ix :: i < |nodes|
    requires forall a, b | 0 <= a < b < |nodes| :: nodes[a] != nodes[b]
    requires j < |nodes|
    ensures nodes[j] in Pick(nodes, ix) <==> j in ix
  {
    if j in ix {
      var k :| 0 <= k < |ix| && ix[k] == j;
      assert Pick(nodes, ix)[k] == nodes[j];
    }
    if nodes[j] in Pick(nodes, ix) {
      var k :| 0 <= k < |ix| && Pick(nodes, ix)[k] == nodes[j];
      assert ix[k] in ix && nodes[ix[k]] == nodes[j];
    }
  }

  lemma PickKeepsOrder(nodes: seq<Node>, ix: seq<nat>, j: nat, k: nat)
    requires (forall i | i in ix :: i < |nodes|) && Ascending(ix) && j < |nodes| && k < |nodes|
    requires forall a, b | 0 <= a < b < |nodes| :: nodes[a] != nodes[b]
    ensures forall a, b | 0 <= a < b < |ix| && Pick(nodes, ix)[a] == nodes[j] && Pick(nodes, ix)[b] == nodes[k] :: j < k
  {
    forall a, b | 0 <= a < b < |ix| && Pick(nodes, ix)[a] == nodes[j] && Pick(nodes, ix)[b] == nodes[k] ensures j < k {
      assert ix[a] in ix && ix[b] in ix;
      assert nodes[ix[a]] == nodes[j] && nodes[ix[b]] == nodes[k];
    }
  }

  /** The forest by ids: a category hangs below the one that its parent id names, and is a root if it has no parent id,
    * an empty one, or one that is not listed. Children and roots stand in the order of the list. */
  lemma ForestFollowsTheIds(cats: seq<Category>, nodes: seq<Node>, roots: seq<Node>, i: nat, j: nat, k: nat)
    requires UniqueIds(cats) && IsForest(cats, nodes, roots) && i < |cats| && j < |cats| && k < |cats|
    ensures nodes[j] in nodes[i].children <==> cats[j].parentId == Some(cats[i].id) && cats[i].id != ""
    ensures nodes[j] in roots <==>
              cats[j].parentId == None || cats[j].parentId == Some("")
              || forall c | c in cats :: Some(c.id) != cats[j].parentId
    ensures forall a, b | 0 <= a < b < |nodes[i].children| && nodes[i].children[a] == nodes[j]
                          && nodes[i].children[b] == nodes[k] :: j < k
    ensures forall a, b | 0 <= a < b < |roots| && roots[a] == nodes[j] && roots[b] == nodes[k] :: j < k
  {
    var ps := ParentsOf(cats);
    SelectIsExact(ps, Some(i), |ps|);
    SelectIsExact(ps, None, |ps|);
    PickIsExact(nodes, Children(ps, i), j);
    PickIsExact(nodes, Roots(ps), j);
    ParentIffNamed(cats, i, j);
    PickKeepsOrder(nodes, Children(ps, i), j, k);
    PickKeepsOrder(nodes, Roots(ps), j, k);
  }

  // ---- which categories the forest holds ----

  /** k steps up from i lead to a root. */
  predicate Climbs(ps: Parents, i: nat, k: nat)
    requires i < |ps|
    decreases k
  {
    var p := ps[i];
    if k == 0 then p.None? else p.Some? && Climbs(ps, p.value, k - 1)
  }

  /** The parent chain of i ends inside the list. */
  ghost predicate Terminates(ps: Parents, i: nat)
    requires i < |ps|
  {
    exists k: nat :: Climbs(ps, i, k)
  }

  lemma {:induction false} DepthIsUnique(ps: Parents, i: nat, k: nat, m: nat)
    requires i < |ps| && Climbs(ps, i, k) && Climbs(ps, i, m)
    ensures k == m
    decreases k
  {
    if k > 0 && m > 0 {
      DepthIsUnique(ps, ps[i].value, k - 1, m - 1);
    }
  }

  ghost predicate AtMostDeep(ps: Parents, x: nat, k: nat) {
    x < |ps| && exists m: nat :: m <= k && Climbs(ps, x, m)
  }

  /** The ancestors of a category, each at its own depth, are as many as its depth says. */
  lemma {:induction false} Ancestors(ps: Parents, i: nat, k: nat) returns (s: set<nat>)
    requires i < |ps| && Climbs(ps, i, k)
    ensures |s| == k + 1
    ensures forall x | x in s :: AtMostDeep(ps, x, k)
    decreases k
  {
    assert AtMostDeep(ps, i, k);
    if k == 0 {
      s := {i};
    } else {
      var above := Ancestors(ps, ps[i].value, k - 1);
      if i in above {
        var m: nat :| m <= k - 1 && Climbs(ps, i, m);
        DepthIsUnique(ps, i, k, m);
      }
      s := above + {i};
      forall x | x in above ensures AtMostDeep(ps, x, k) {
        var m: nat :| m <= k - 1 && Climbs(ps, x, m);
        assert m <= k && Climbs(ps, x, m);
      }
    }
  }

  lemma {:induction false} BelowCardinality(s: set<nat>, n: nat)
    requires forall x | x in s :: x < n
    ensures |s| <= n
    decreases n
  {
    if n > 0 {
      BelowCardinality(s - {n - 1}, n - 1);
    } else {
      assert s == {};
    }
  }

  lemma DepthIsBounded(ps: Parents, i: nat, k: nat)
    requires i < |ps| && Climbs(ps, i, k)
    ensures k < |ps|
  {
    var s := Ancestors(ps, i, k);
    BelowCardinality(s, |ps|);
  }

  function AllChildren(ps: Parents, ix: seq<nat>): (r: seq<nat>)
    ensures forall x | x in r :: x < |ps|
  {
    if ix == [] then [] else Children(ps, ix[0]) + AllChildren(ps, ix[1..])
  }

  /** The positions d steps down from the roots, in the order of the forest. */
  function Level(ps: Parents, d: nat): (r: seq<nat>)
    ensures forall x | x in r :: x < |ps|
  {
    if d == 0 then Roots(ps) else AllChildren(ps, Level(ps, d - 1))
  }

  /** The first d levels, one after the other. */
  function Levels(ps: Parents, d: nat): seq<nat> {
    if d == 0 then [] else Levels(ps, d - 1) + Level(ps, d - 1)
  }

  /** How often j occurs. */
  function Count(xs: seq<nat>, j: nat): nat {
    if xs == [] then 0 else (if xs[0] == j then 1 else 0) + Count(xs[1..], j)
  }

  lemma {:induction false} CountConcat(xs: seq<nat>, ys: seq<nat>, j: nat)
    ensures Count(xs + ys, j) == Count(xs, j) + Count(ys, j)
  {
    if xs == [] {
      assert xs + ys == ys;
    } else {
      assert (xs + ys)[1..] == xs[1..] + ys;
      CountConcat(xs[1..], ys, j);
    }
  }

  lemma {:induction false} CountIsMultiplicity(xs: seq<nat>, j: nat)
    ensures Count(xs, j) == multiset(xs)[j]
  {
    if xs != [] {
      CountIsMultiplicity(xs[1..], j);
      assert xs == [xs[0]] + xs[1..];
    }
  }

  lemma CountOne(x: nat, j: nat)
    ensures Count([x], j) == (if x == j then 1 else 0) && Count([], j) == 0
  {
  }

  lemma {:induction false} SelectCounts(ps: Parents, parent: Option<nat>, n: nat, j: nat)
    requires n <= |ps| && j < |ps|
    ensures Count(Select(ps, parent, n), j) == if j < n && ps[j] == parent then 1 else 0
    decreases n
  {
    if n > 0 {
      var last: seq<nat> := if ps[n - 1] == parent then [n - 1] else [];
      SelectCounts(ps, parent, n - 1, j);
      CountConcat(Select(ps, parent, n - 1), last, j);
      assert Count(last, j) == if j == n - 1 && ps[j] == parent then 1 else 0 by {
        CountOne(n - 1, j);
      }
    }
  }

  lemma {:induction false} ChildrenCount(ps: Parents, ix: seq<nat>, j: nat)
    requires j < |ps|
    ensures Count(AllChildren(ps, ix), j) == if ps[j].Some? then Count(ix, ps[j].value) else 0
    decreases |ix|
  {
    if ix != [] {
      SelectCounts(ps, Some(ix[0]), |ps|, j);
      ChildrenCount(ps, ix[1..], j);
      CountConcat(Children(ps, ix[0]), AllChildren(ps, ix[1..]), j);
      if ps[j].Some? {
        assert ix == [ix[0]] + ix[1..];
        CountConcat([ix[0]], ix[1..], ps[j].value);
        CountOne(ix[0], ps[j].value);
      }
    }
  }

  /** A category is on level d, once, exactly when its parent chain reaches a root in d steps. */
  lemma {:induction false} LevelCounts(ps: Parents, d: nat, j: nat)
    requires j < |ps|
    ensures Count(Level(ps, d), j) == if Climbs(ps, j, d) then 1 else 0
    decreases d
  {
    if d == 0 {
      SelectCounts(ps, None, |ps|, j);
    } else {
      ChildrenCount(ps, Level(ps, d - 1), j);
      if ps[j].Some? {
        LevelCounts(ps, d - 1, ps[j].value);
      }
    }
  }

  ghost predicate ClimbsBelow(ps: Parents, j: nat, d: nat)
    requires j < |ps|
  {
    exists k: nat :: k < d && Climbs(ps, j, k)
  }

  lemma OneMoreLevel(ps: Parents, j: nat, d: nat)
    requires j < |ps|
    ensures ClimbsBelow(ps, j, d + 1) <==> ClimbsBelow(ps, j, d) || Climbs(ps, j, d)
    ensures !(ClimbsBelow(ps, j, d) && Climbs(ps, j, d))
  {
    if ClimbsBelow(ps, j, d) {
      var k: nat :| k < d && Climbs(ps, j, k);
      assert k < d + 1;
      if Climbs(ps, j, d) {
        DepthIsUnique(ps, j, k, d);
      }
    } else if Climbs(ps, j, d) {
      assert d < d + 1;
    }
  }

  lemma {:induction false} LevelsCount(ps: Parents, d: nat, j: nat)
    requires j < |ps|
    ensures Count(Levels(ps, d), j) == if ClimbsBelow(ps, j, d) then 1 else 0
    decreases d
  {
    if d > 0 {
      var e := d - 1;
      LevelsCount(ps, e, j);
      LevelCounts(ps, e, j);
      CountConcat(Levels(ps, e), Level(ps, e), j);
      assert Count(Levels(ps, d), j) == Count(Levels(ps, e), j) + Count(Level(ps, e), j);
      OneMoreLevel(ps, j, e);
    }
  }

  /** The forest, at most as deep as the list is long, holds a category once if its parent chain ends, and never
    * otherwise. */
  lemma HeldOnceIffTerminates(ps: Parents, j: nat)
    requires j < |ps|
    ensures Count(Levels(ps, |ps|), j) == if Terminates(ps, j) then 1 else 0
  {
    LevelsCount(ps, |ps|, j);
    if Terminates(ps, j) {
      var k: nat :| Climbs(ps, j, k);
      DepthIsBounded(ps, j, k);
      assert k < |ps| && Climbs(ps, j, k);
    }
  }

  lemma {:induction false} LevelsInRange(ps: Parents, d: nat)
    ensures forall x | x in Levels(ps, d) :: x < |ps|
  {
    if d > 0 {
      LevelsInRange(ps, d - 1);
    }
  }

  function UpTo(n: nat): seq<nat> {
    if n == 0 then [] else UpTo(n - 1) + [n - 1]
  }

  lemma {:induction false} UpToCounts(n: nat, j: nat)
    ensures Count(UpTo(n), j) == if j < n then 1 else 0
    decreases n
  {
    if n > 0 {
      UpToCounts(n - 1, j);
      CountConcat(UpTo(n - 1), [n - 1], j);
      CountOne(n - 1, j);
    }
  }

  /** Nothing lies deeper than the list is long. */
  lemma DeeperLevelsAreEmpty(ps: Parents, d: nat)
    requires |ps| <= d
    ensures Level(ps, d) == []
  {
    if Level(ps, d) != [] {
      var j := Level(ps, d)[0];
      assert j in Level(ps, d) && j in multiset(Level(ps, d));
      CountIsMultiplicity(Level(ps, d), j);
      LevelCounts(ps, d, j);
      DepthIsBounded(ps, j, d);
    }
  }

  /** Without cycles the flattened forest is a permutation of the list; with one, some category is missing. */
  lemma PermutationIffAcyclic(ps: Parents)
    ensures multiset(Levels(ps, |ps|)) == multiset(UpTo(|ps|)) <==> forall j: nat | j < |ps| :: Terminates(ps, j)
  {
    var held, all := multiset(Levels(ps, |ps|)), multiset(UpTo(|ps|));
    LevelsInRange(ps, |ps|);
    forall j: nat ensures held[j] == (if j < |ps| && Terminates(ps, j) then 1 else 0)
                  ensures all[j] == if j < |ps| then 1 else 0 {
      UpToCounts(|ps|, j);
      CountIsMultiplicity(UpTo(|ps|), j);
      CountIsMultiplicity(Levels(ps, |ps|), j);
      if j < |ps| {
        HeldOnceIffTerminates(ps, j);
      } else {
        assert j !in Levels(ps, |ps|);
      }
    }
    if held == all {
      forall j: nat | j < |ps| ensures Terminates(ps, j) {
        assert held[j] == all[j];
      }
    }
  }

  // ---- the same, read off the objects ----

  /** What following `children` once from a list of objects gives. */
  ghost function Expand(xs: seq<Node>): seq<Node>
    reads xs
  {
    if xs == [] then [] else xs[0].children + Expand(xs[1..])
  }

  ghost function NodeLevel(roots: seq<Node>, d: nat): seq<Node>
    reads *
  {
    if d == 0 then roots else Expand(NodeLevel(roots, d - 1))
  }

  lemma {:induction false} ExpandPicks(cats: seq<Category>, nodes: seq<Node>, roots: seq<Node>, ix: seq<nat>)
    requires IsForest(cats, nodes, roots) && forall i | i in ix :: i < |cats|
    ensures Expand(Pick(nodes, ix)) == Pick(nodes, AllChildren(ParentsOf(cats), ix))
    decreases |ix|
  {
    if ix != [] {
      assert ix[0] in ix && forall i | i in ix[1..] :: i in ix;
      ExpandPicks(cats, nodes, roots, ix[1..]);
      assert Pick(nodes, ix)[1..] == Pick(nodes, ix[1..]);
      assert Pick(nodes, Children(ParentsOf(cats), ix[0]) + AllChildren(ParentsOf(cats), ix[1..]))
             == Pick(nodes, Children(ParentsOf(cats), ix[0])) + Pick(nodes, AllChildren(ParentsOf(cats), ix[1..]));
    }
  }

  /** The objects d links below the roots that `GetTree` returns are those of the categories on level d, in order. */
  lemma {:induction false} NodeLevels(cats: seq<Category>, nodes: seq<Node>, roots: seq<Node>, d: nat)
    requires IsForest(cats, nodes, roots)
    ensures NodeLevel(roots, d) == Pick(nodes, Level(ParentsOf(cats), d))
    decreases d
  {
    if d > 0 {
      NodeLevels(cats, nodes, roots, d - 1);
      ExpandPicks(cats, nodes, roots, Level(ParentsOf(cats), d - 1));
    }
  }
}
