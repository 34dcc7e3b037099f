/** Whole runs of insertions and deletions, against the finite ordered map they stand for. */
module BTreeRuns {
  import opened Sequences
  import opened OrderedEntries
  import opened BTreeModel
  import opened BTreeInsert
  import opened BTreeSearch

  datatype Op = Put(key: int, value: int) | Remove(key: int)

  /** A tree and its depth. */
  datatype State = State(tree: Tree, depth: nat)

  function Empty(M: nat): State {
    State(Leaf(Zeros(M), []), 0)
  }

  ghost predicate Sound(N: nat, M: nat, s: State) {
    Inv(N, M, s.tree, s.depth, Unbounded)
  }

  /** Keys are not 0, and a deletion reads inside the key array. */
  ghost predicate Allowed(M: nat, s: State, op: Op) {
    match op
    case Put(key, _) => key != 0
    case Remove(key) => SlotOf(LeafFor(s.tree, s.depth, key), key) < M
  }

  function Step(N: nat, M: nat, s: State, op: Op): State
    requires N >= 3 && M >= 2 && Shape(N, M, s.tree, s.depth)
  {
    match op
    case Put(key, value) => var r := Root(s.depth, Insert(N, M, s.tree, s.depth, key, value)); State(r.0, r.1)
    case Remove(key) => State(Tombstone(s.tree, s.depth, key), s.depth)
  }

  ghost predicate AllAllowed(N: nat, M: nat, s: State, ops: seq<Op>)
    requires N >= 3 && M >= 2
    decreases |ops|
  {
    ops == [] ||
    (Shape(N, M, s.tree, s.depth) && Allowed(M, s, ops[0]) && AllAllowed(N, M, Step(N, M, s, ops[0]), ops[1..]))
  }

  ghost function Run(N: nat, M: nat, s: State, ops: seq<Op>): State
    requires N >= 3 && M >= 2 && AllAllowed(N, M, s, ops)
    decreases |ops|
  {
    if ops == [] then s else Run(N, M, Step(N, M, s, ops[0]), ops[1..])
  }

  /** The reference: a map that every operation assigns to. */
  function Latest(m: map<int, int>, ops: seq<Op>): map<int, int> {
    if ops == [] then m
    else
      var before, op := Latest(m, ops[..|ops| - 1]), ops[|ops| - 1];
      match op
      case Put(key, value) => Assign(before, key, value)
      case Remove(key) => before - {key}
  }

  lemma {:induction false} StepRight(N: nat, M: nat, s: State, op: Op)
    requires N >= 3 && M >= 2 && Sound(N, M, s) && Allowed(M, s, op)
    ensures Shape(N, M, s.tree, s.depth) && Sound(N, M, Step(N, M, s, op))
    ensures Contents(Entries(Step(N, M, s, op).tree)) == Latest(Contents(Entries(s.tree)), [op])
  {
    RootGood(N, M, s.tree, s.depth, 1, 1);
    var m := Contents(Entries(s.tree));
    assert [op][..0] == [] && Latest(m, []) == m;
    match op
    case Put(key, value) =>
      RootGood(N, M, s.tree, s.depth, key, value);
      InsertMap(N, M, s.tree, s.depth, key, value);
    case Remove(key) => DelRight(N, M, s.tree, s.depth, key);
  }

  lemma {:induction false} LatestSplit(m: map<int, int>, op: Op, ops: seq<Op>)
    ensures Latest(m, [op] + ops) == Latest(Latest(m, [op]), ops)
  {
    if ops == [] {
      assert [op] + ops == [op];
    } else {
      var all, n := [op] + ops, |ops| - 1;
      assert all[..|all| - 1] == [op] + ops[..n];
      LatestSplit(m, op, ops[..n]);
    }
  }

  /** Through splits, root growth and tombstones, the tree is always the map of latest values. */
  lemma {:induction false} RunIsMap(N: nat, M: nat, s: State, ops: seq<Op>)
    requires N >= 3 && M >= 2 && Sound(N, M, s) && AllAllowed(N, M, s, ops)
    ensures Sound(N, M, Run(N, M, s, ops))
    ensures Contents(Entries(Run(N, M, s, ops).tree)) == Latest(Contents(Entries(s.tree)), ops)
    decreases |ops|
  {
    hide Sound, Step, Contents, Entries;
    if ops != [] {
      StepRight(N, M, s, ops[0]);
      RunIsMap(N, M, Step(N, M, s, ops[0]), ops[1..]);
      LatestSplit(Contents(Entries(s.tree)), ops[0], ops[1..]);
      assert ops == [ops[0]] + ops[1..];
    }
  }

  /** What `find` answers: a value other than 0, or 0 for "not found". */
  function Found(s: State, key: int): int {
    var leaf := LeafFor(s.tree, s.depth, key);
    if leaf.Leaf? && |leaf.values| <= |leaf.keys| then LeafLookup(leaf, key) else 0
  }

  /** After any run from the empty tree, `find` answers from the map. */
  lemma {:induction false} FindAfterRun(N: nat, M: nat, ops: seq<Op>, key: int)
    requires N >= 3 && M >= 2 && AllAllowed(N, M, Empty(M), ops)
    ensures var m := Latest(map[], ops); Found(Run(N, M, Empty(M), ops), key) == if key in m then m[key] else 0
  {
    var s := Run(N, M, Empty(M), ops);
    assert Sound(N, M, Empty(M)) && Contents(Entries(Empty(M).tree)) == map[];
    RunIsMap(N, M, Empty(M), ops);
    FindRight(N, M, s.tree, s.depth, Unbounded, key);
    MapLookup(Entries(s.tree), key);
  }

  /** The half of a full leaf that leaf_insert hands to leaf_insert_nonfull (btree.h:342-361). */
  function TakingHalf(M: nat, t: Tree, key: int): Tree
    requires t.Leaf? && |t.keys| == |t.values| == M
  {
    var th := (M + 1) / 2;
    if LeafPos(t.keys, M, key) < th then Leaf(t.keys, t.values[..th]) else Leaf(t.keys[th..] + Zeros(th), t.values[th..])
  }

  /** It is the one that the pair goes into. */
  lemma {:induction false} HalfTakes(M: nat, t: Tree, key: int, value: int)
    requires M >= 2 && t.Leaf? && |t.keys| == |t.values| == M
    ensures var h, i, o := TakingHalf(M, t, key), LeafPos(t.keys, M, key), LeafInsert(M, t, key, value);
            var th := (M + 1) / 2;
            o.Split? && if i < th then o.left == LeafPut(h.keys, h.values, key, value, i)
                        else o.right == LeafPut(h.keys, h.values, key, value, i - th)
  {
  }

  /** Why a leaf must hold two keys: the half has room, as leaf_insert_nonfull asserts (btree.h:375),
      for every key exactly if M >= 2. With M = 1, which the constructor accepts, it has none when the
      new key is not above the stored one; ascending insertions do work. */
  lemma SplitLeavesRoom(M: nat, t: Tree, key: int)
    requires M > 0 && t.Leaf? && |t.keys| == |t.values| == M
    ensures |TakingHalf(M, t, key).values| < M <==> M >= 2 || t.keys[0] < key
    ensures (forall k :: |TakingHalf(M, t, k).values| < M) <==> M >= 2
  {
    assert M == 1 ==> |TakingHalf(M, t, t.keys[0]).values| == M;
  }

  /** Two insertions fill a leaf of two, and a deletion of a key above both reads past it (btree.h:158). */
  lemma DelPastLeaf()
    ensures AllAllowed(3, 2, Empty(2), [Put(1, 1), Put(2, 1)])
    ensures !Allowed(2, Run(3, 2, Empty(2), [Put(1, 1), Put(2, 1)]), Remove(3))
  {
    assert Zeros(2) == [0, 0];
    assert Shifted([0, 0], 0, 0, 1) == [1, 0] && Shifted([1, 0], 1, 1, 2) == [1, 2];
    assert LeafPut([0, 0], [], 1, 1, 0) == Leaf([1, 0], [1]);
    assert LeafInsert(2, Leaf([0, 0], []), 1, 1) == Fits(Leaf([1, 0], [1]));
    assert LeafPos([1, 0], 1, 2) == 1;
    assert LeafPut([1, 0], [1], 2, 1, 1) == Leaf([1, 2], [1, 1]);
    assert LeafInsert(2, Leaf([1, 0], [1]), 2, 1) == Fits(Leaf([1, 2], [1, 1]));
    assert LeafPos([1, 2], 2, 3) == 2;
    var one := Step(3, 2, Empty(2), Put(1, 1));
    assert one == State(Leaf([1, 0], [1]), 0);
    var two := Step(3, 2, one, Put(2, 1));
    assert two == State(Leaf([1, 2], [1, 1]), 0);
    var ops := [Put(1, 1), Put(2, 1)];
    assert ops[1..] == [Put(2, 1)] && ops[1..][1..] == [];
    assert Run(3, 2, Empty(2), ops) == Run(3, 2, one, [Put(2, 1)]) == two;
  }

  /** Key 0 in a fresh leaf is taken for an existing key: the pair is not stored. */
  lemma {:induction false} ZeroIsLost(N: nat, M: nat, value: int)
    requires N >= 3 && M >= 2 && value != 0
    ensures Shape(N, M, Empty(M).tree, 0)
    ensures Found(Step(N, M, Empty(M), Put(0, value)), 0) == 0
  {
    assert Zeros(M)[0] == 0;
  }
}
