/** The B+ tree of btree.h on the heap. */
module BTree {
  import opened Sequences
  import opened OrderedEntries
  import opened BTreeModel
  import opened BTreeInsert
  import opened BTreeSearch

  /** LeafNode and InnerNode, told apart by their type tag. Every array has full capacity; slots
      past `numKeys` are stale or unset. A leaf has no child slots, an inner node no value slots. */
  class Node {
    const isLeaf: bool
    var numKeys: nat
    const keys: array<int>
    const values: array<int>
    const children: array<Node?>
    ghost var Repr: set<object>

    ghost function Own(): set<object> {
      {this, keys, values, children}
    }

    ghost predicate Valid(N: nat, M: nat, d: nat)
      reads this, Repr
      decreases d, 0
    {
      && Own() <= Repr && keys != values
      && if d == 0 then
           isLeaf && Repr == Own() && keys.Length == values.Length == M && numKeys <= M
         else
           && !isLeaf && keys.Length == N && children.Length == N + 1 && numKeys <= N
           && Group(N, M, d - 1, children[..numKeys + 1], Repr - Own())
    }

    /** Valid nodes of one depth inside `region`, no two of which share an object. */
    static ghost predicate Group(N: nat, M: nat, d: nat, nodes: seq<Node?>, region: set<object>)
      reads region
      decreases d, 2
    {
      && (forall i | 0 <= i < |nodes| :: Member(N, M, d, nodes[i], region))
      && (forall i, j | 0 <= i < j < |nodes| :: nodes[i].Repr !! nodes[j].Repr)
    }

    static ghost predicate Member(N: nat, M: nat, d: nat, n: Node?, region: set<object>)
      reads region
      decreases d, 1
    {
      n != null && n in region && n.Repr <= region && n.Valid(N, M, d)
    }

    /** The tree value that this node and everything below it denotes. */
    ghost function Model(N: nat, M: nat, d: nat): (t: Tree)
      requires Valid(N, M, d)
      reads this, Repr
      ensures Shape(N, M, t, d)
      decreases d, 0
    {
      if d == 0 then Tree.Leaf(keys[..], values[..numKeys])
      else Tree.Inner(keys[..numKeys], Models(N, M, d - 1, children[..numKeys + 1], Repr - Own()))
    }

    static ghost function Models(N: nat, M: nat, d: nat, nodes: seq<Node?>, region: set<object>): (s: seq<Tree>)
      requires Group(N, M, d, nodes, region)
      reads region
      ensures |s| == |nodes|
      ensures forall i | 0 <= i < |nodes| :: Member(N, M, d, nodes[i], region) && s[i] == nodes[i].Model(N, M, d)
      ensures forall i | 0 <= i < |nodes| :: Shape(N, M, s[i], d)
      decreases d, 1, |nodes|
    {
      if nodes == [] then []
      else
        assert Member(N, M, d, nodes[0], region);
        assert Group(N, M, d, nodes[1..], region) by {
          assert forall i | 0 <= i < |nodes| - 1 :: nodes[1..][i] == nodes[i + 1];
        }
        [nodes[0].Model(N, M, d)] + Models(N, M, d, nodes[1..], region)
    }

    constructor NewLeaf(M: nat)
      ensures isLeaf && numKeys == 0 && fresh(Repr) && Repr == Own()
      ensures keys.Length == values.Length == M && keys != values
      ensures forall i | 0 <= i < M :: keys[i] == 0
      ensures fresh(keys) && fresh(values) && fresh(children)
    {
      isLeaf, numKeys := true, 0;
      keys := new int[M](_ => 0);
      values := new int[M];
      children := new Node?[0];
      new;
      Repr := Own();
    }

    constructor NewInner(N: nat)
      ensures !isLeaf && numKeys == 0 && fresh(Repr) && Repr == Own()
      ensures keys.Length == N && children.Length == N + 1 && keys != values
      ensures fresh(keys) && fresh(values) && fresh(children)
    {
      isLeaf, numKeys := false, 0;
      keys := new int[N];
      values := new int[0];
      children := new Node?[N + 1];
      new;
      Repr := Own();
    }
  }

  method LeafPositionFor(key: int, keys: array<int>, numKeys: nat) returns (k: nat)
    requires numKeys <= keys.Length
    ensures k == LeafPos(keys[..], numKeys, key)
  {
    k := 0;
    while k < numKeys && keys[k] < key
      invariant k <= numKeys
      invariant LeafPos(keys[..], numKeys, key) == LeafPos(keys[..], numKeys, key, k)
    {
      k := k + 1;
    }
  }

  method InnerPositionFor(key: int, keys: array<int>, numKeys: nat) returns (k: nat)
    requires numKeys <= keys.Length
    ensures k == InnerPos(keys[..numKeys], key)
  {
    k := 0;
    while k < numKeys && (keys[k] < key || keys[k] == key)
      invariant k <= numKeys
      invariant InnerPos(keys[..numKeys], key) == InnerPos(keys[..numKeys], key, k)
    {
      k := k + 1;
    }
  }

  /** btree.h:385-388: live slots from `index` on move one slot to the right. */
  method ShiftLeafSlots(keys: array<int>, values: array<int>, numKeys: nat, index: nat)
    requires keys != values && index <= numKeys < keys.Length == values.Length
    modifies keys, values
    ensures forall j | 0 <= j <= index || numKeys < j < keys.Length ::
              keys[j] == old(keys[j]) && values[j] == old(values[j])
    ensures forall j | index < j <= numKeys :: keys[j] == old(keys[j - 1]) && values[j] == old(values[j - 1])
  {
    var i := numKeys;
    while i > index
      invariant index <= i <= numKeys
      invariant forall j | 0 <= j <= i || numKeys < j < keys.Length ::
                  keys[j] == old(keys[j]) && values[j] == old(values[j])
      invariant forall j | i < j <= numKeys :: keys[j] == old(keys[j - 1]) && values[j] == old(values[j - 1])
    {
      keys[i] := keys[i - 1];
      values[i] := values[i - 1];
      i := i - 1;
    }
  }

  method LeafInsertNonfull(ghost N: nat, ghost M: nat, node: Node, key: int, value: int, index: nat)
    requires node.Valid(N, M, 0) && node.numKeys < M && index <= node.numKeys
    modifies node`numKeys, node.keys, node.values
    ensures node.Valid(N, M, 0)
    ensures var m := old(node.Model(N, M, 0)); node.Model(N, M, 0) == LeafPut(m.keys, m.values, key, value, index)
  {
    if node.keys[index] == key {
      node.values[index] := value;
    } else {
      ShiftLeafSlots(node.keys, node.values, node.numKeys, index);
      node.numKeys := node.numKeys + 1;
      node.keys[index] := key;
      node.values[index] := value;
      ghost var ks, vs := old(node.keys[..]), old(node.values[..node.numKeys]);
      assert node.keys[..] == Shifted(ks, |vs|, index, key);
      assert node.values[..node.numKeys] == vs[..index] + [value] + vs[index..];
    }
  }

  /** The InsertionResult struct; `Kept` when no split happened. */
  datatype InsertionResult = Kept | WasSplit(key: int, left: Node, right: Node)

  /** The heap after an insertion below `node` denotes outcome `o`. */
  ghost predicate Yields(N: nat, M: nat, d: nat, node: Node, result: InsertionResult, o: Outcome)
    reads node, node.Repr
    reads if result.WasSplit? then {result.right} + result.right.Repr else {}
  {
    && node.Valid(N, M, d)
    && match result
       case Kept => o == Fits(node.Model(N, M, d))
       case WasSplit(key, left, right) =>
         && left == node && right.Valid(N, M, d) && node.Repr !! right.Repr
         && o == Split(node.Model(N, M, d), key, right.Model(N, M, d))
  }

  ghost function Footprint(node: Node, result: InsertionResult): set<object>
    reads node
    reads if result.WasSplit? then {result.right} else {}
  {
    node.Repr + if result.WasSplit? then result.right.Repr else {}
  }

  method LeafInsert(N: nat, M: nat, node: Node, key: int, value: int) returns (result: InsertionResult)
    requires M >= 2 && node.Valid(N, M, 0)
    modifies node`numKeys, node.keys, node.values
    ensures Yields(N, M, 0, node, result, BTreeInsert.LeafInsert(M, old(node.Model(N, M, 0)), key, value))
    ensures forall o | o in Footprint(node, result) :: o in old(node.Repr) || fresh(o)
  {
    var i := LeafPositionFor(key, node.keys, node.numKeys);
    if node.numKeys == M {
      result := LeafSplit(N, M, node, key, value, i);
    } else {
      LeafInsertNonfull(N, M, node, key, value, i);
      result := Kept;
    }
  }

  /** btree.h:343-365, the branch for a full leaf. */
  method LeafSplit(ghost N: nat, M: nat, node: Node, key: int, value: int, i: nat)
    returns (result: InsertionResult)
    requires M >= 2 && node.Valid(N, M, 0) && node.numKeys == M && i == LeafPos(node.keys[..], M, key)
    modifies node`numKeys, node.keys, node.values
    ensures Yields(N, M, 0, node, result, BTreeInsert.LeafInsert(M, old(node.Model(N, M, 0)), key, value))
    ensures forall o | o in Footprint(node, result) :: o in old(node.Repr) || fresh(o)
  {
    hide Node.Valid, Node.Model, Node.Group, LeafPut, BTreeInsert.LeafInsert;
    LeafParts(N, M, node);
    OwnParts(node);
    ghost var m := node.Model(N, M, 0);
    var threshold := (M + 1) / 2;
    var sibling := MoveUpperHalf(N, M, node, threshold);
    LeafParts(N, M, sibling);
    ghost var l, r := node.Model(N, M, 0), sibling.Model(N, M, 0);
    FullLeafInsert(M, m, key, value, threshold, i, l, r);
    if i < threshold {
      LeafInsertNonfull(N, M, node, key, value, i);
    } else {
      LeafInsertNonfull(N, M, sibling, key, value, i - threshold);
    }
    LeafParts(N, M, sibling);
    result := WasSplit(sibling.keys[0], node, sibling);
  }

  /** btree.h:344-352: the new sibling takes the live slots from `threshold` on. */
  method MoveUpperHalf(ghost N: nat, M: nat, node: Node, threshold: nat) returns (sibling: Node)
    requires node.Valid(N, M, 0) && node.numKeys == M && 0 < threshold < M
    modifies node`numKeys
    ensures fresh(sibling.Repr) && sibling.Valid(N, M, 0) && node.Valid(N, M, 0)
    ensures node.numKeys == threshold && sibling.numKeys == M - threshold
    ensures var m := old(node.Model(N, M, 0));
            && node.Model(N, M, 0) == Tree.Leaf(m.keys, m.values[..threshold])
            && sibling.Model(N, M, 0) ==
               Tree.Leaf(m.keys[threshold..] + Zeros(threshold), m.values[threshold..])
  {
    sibling := new Node.NewLeaf(M);
    sibling.numKeys := node.numKeys - threshold;
    var j := 0;
    while j < sibling.numKeys
      invariant j <= sibling.numKeys == M - threshold
      invariant fresh(sibling.Repr) && sibling.Repr == sibling.Own()
      invariant forall k | 0 <= k < j ::
                  sibling.keys[k] == node.keys[threshold + k] && sibling.values[k] == node.values[threshold + k]
      invariant forall k | j <= k < M :: sibling.keys[k] == 0
      invariant node.keys[..] == old(node.keys[..]) && node.values[..] == old(node.values[..])
    {
      sibling.keys[j] := node.keys[threshold + j];
      sibling.values[j] := node.values[threshold + j];
      j := j + 1;
    }
    node.numKeys := threshold;
    ghost var m := old(node.Model(N, M, 0));
    assert node.values[..threshold] == m.values[..threshold];
    assert sibling.keys[..] == m.keys[threshold..] + Zeros(threshold);
    assert sibling.values[..M - threshold] == m.values[threshold..];
  }

  /** btree.h:466-484: the separator and the new right node go in after the child that was split. */
  method PlaceSplit(node: Node, index: nat, key: int, left: Node, right: Node)
    requires index <= node.numKeys < node.keys.Length && node.children.Length == node.keys.Length + 1
    modifies node`numKeys, node.keys, node.children
    ensures node.numKeys == old(node.numKeys) + 1
    ensures node.keys[..node.numKeys] ==
            old(node.keys[..index]) + [key] + old(node.keys[index..node.numKeys])
    ensures node.children[..node.numKeys + 1] ==
            old(node.children[..index]) + [left, right] + old(node.children[index + 1..node.numKeys + 1])
  {
    if index == node.numKeys {
      node.keys[index] := key;
      node.children[index] := left;
      node.children[index + 1] := right;
      node.numKeys := node.numKeys + 1;
    } else {
      PlaceInside(node.keys, node.children, node.numKeys, index, key, left, right);
      node.numKeys := node.numKeys + 1;
    }
  }

  /** btree.h:474-483. */
  method PlaceInside(keys: array<int>, children: array<Node?>, n: nat, index: nat, key: int, left: Node, right: Node)
    requires index < n < keys.Length && children.Length == keys.Length + 1
    modifies keys, children
    ensures keys[..n + 1] == old(keys[..index]) + [key] + old(keys[index..n])
    ensures children[..n + 2] == old(children[..index]) + [left, right] + old(children[index + 1..n + 1])
  {
    ghost var ks, cs := keys[..], children[..];
    ShiftInnerSlots(keys, children, n, index);
    children[index] := left;
    children[index + 1] := right;
    keys[index] := key;
    OneIn(ks, keys[..], index, n, key);
    TwoIn(cs, children[..], index, n + 1, left, right);
  }

  lemma OneIn<T>(was: seq<T>, now: seq<T>, i: nat, n: nat, x: T)
    requires i < n < |was| == |now| && now[i] == x
    requires (forall j | 0 <= j < i :: now[j] == was[j]) && forall j | i < j <= n :: now[j] == was[j - 1]
    ensures now[..n + 1] == was[..i] + [x] + was[i..n]
  {
  }

  lemma TwoIn<T>(was: seq<T>, now: seq<T>, i: nat, n: nat, x: T, y: T)
    requires i + 1 < n < |was| == |now| && now[i] == x && now[i + 1] == y
    requires (forall j | 0 <= j < i :: now[j] == was[j]) && forall j | i + 1 < j <= n :: now[j] == was[j - 1]
    ensures now[..n + 1] == was[..i] + [x, y] + was[i + 1..n]
  {
  }

  /** btree.h:474-479. */
  method ShiftInnerSlots(keys: array<int>, children: array<Node?>, numKeys: nat, index: nat)
    requires index < numKeys < keys.Length && children.Length == keys.Length + 1
    modifies keys, children
    ensures forall j | 0 <= j <= index :: keys[j] == old(keys[j]) && children[j] == old(children[j])
    ensures forall j | index < j <= numKeys :: keys[j] == old(keys[j - 1])
    ensures forall j | index < j <= numKeys + 1 :: children[j] == old(children[j - 1])
  {
    children[numKeys + 1] := children[numKeys];
    var i := numKeys;
    while i != index
      invariant index <= i <= numKeys
      invariant forall j | 0 <= j <= i :: keys[j] == old(keys[j]) && children[j] == old(children[j])
      invariant forall j | i < j <= numKeys :: keys[j] == old(keys[j - 1])
      invariant forall j | i < j <= numKeys + 1 :: children[j] == old(children[j - 1])
      decreases i
    {
      children[i] := children[i - 1];
      keys[i] := keys[i - 1];
      i := i - 1;
    }
  }

  // ---------------------------------------------------------------- groups of nodes

  /** Taking one node out of a group frees its objects. */
  lemma {:induction false} GroupWithout(N: nat, M: nat, d: nat, nodes: seq<Node?>, i: nat, region: set<object>)
    requires Node.Group(N, M, d, nodes, region) && i < |nodes|
    ensures Node.Member(N, M, d, nodes[i], region)
    ensures Node.Group(N, M, d, nodes[..i] + nodes[i + 1..], region - nodes[i].Repr)
    ensures var ms := Node.Models(N, M, d, nodes, region);
            Node.Models(N, M, d, nodes[..i] + nodes[i + 1..], region - nodes[i].Repr) == ms[..i] + ms[i + 1..]
  {
    var rest, r := nodes[..i] + nodes[i + 1..], region - nodes[i].Repr;
    forall j | 0 <= j < |rest| ensures Node.Member(N, M, d, rest[j], r) {
      WithoutMember(N, M, d, nodes, i, region, j);
    }
    forall j, k | 0 <= j < k < |rest| ensures rest[j].Repr !! rest[k].Repr {
      WithoutMember(N, M, d, nodes, i, region, j);
      WithoutMember(N, M, d, nodes, i, region, k);
    }
  }

  lemma {:induction false} WithoutMember(N: nat, M: nat, d: nat, nodes: seq<Node?>, i: nat, region: set<object>, j: nat)
    requires Node.Group(N, M, d, nodes, region) && i < |nodes| && j < |nodes| - 1
    ensures Node.Member(N, M, d, nodes[i], region)
    ensures var k := if j < i then j else j + 1;
            (nodes[..i] + nodes[i + 1..])[j] == nodes[k] && Node.Member(N, M, d, nodes[k], region - nodes[i].Repr)
  {
    var k := if j < i then j else j + 1;
    assert Node.Member(N, M, d, nodes[i], region) && Node.Member(N, M, d, nodes[k], region);
    assert nodes[if j < i then k else i].Repr !! nodes[if j < i then i else k].Repr;
    assert nodes[k].Valid(N, M, d) && nodes[k] in nodes[k].Own();
  }

  /** Putting a group that lives elsewhere in between. */
  lemma {:induction false} GroupSplice(N: nat, M: nat, d: nat, rest: seq<Node?>, i: nat, r1: set<object>,
                    mid: seq<Node?>, r2: set<object>)
    requires Node.Group(N, M, d, rest, r1) && i <= |rest| && Node.Group(N, M, d, mid, r2) && r1 !! r2
    ensures Node.Group(N, M, d, rest[..i] + mid + rest[i..], r1 + r2)
    ensures var ms := Node.Models(N, M, d, rest, r1);
            Node.Models(N, M, d, rest[..i] + mid + rest[i..], r1 + r2) ==
            ms[..i] + Node.Models(N, M, d, mid, r2) + ms[i..]
  {
    SplicedGroup(N, M, d, rest, i, r1, mid, r2);
    hide Node.Valid, Node.Model, Node.Group, Node.Member;
  }

  lemma {:induction false} SplicedGroup(N: nat, M: nat, d: nat, rest: seq<Node?>, i: nat, r1: set<object>,
                                        mid: seq<Node?>, r2: set<object>)
    requires Node.Group(N, M, d, rest, r1) && i <= |rest| && Node.Group(N, M, d, mid, r2) && r1 !! r2
    ensures Node.Group(N, M, d, rest[..i] + mid + rest[i..], r1 + r2)
  {
    hide Node.Valid;
    var all := rest[..i] + mid + rest[i..];
    forall j | 0 <= j < |all| ensures Node.Member(N, M, d, all[j], r1 + r2) {
      SpliceMember(N, M, d, rest, i, r1, mid, r2, j);
    }
    forall j, k | 0 <= j < k < |all| ensures all[j].Repr !! all[k].Repr {
      SpliceMember(N, M, d, rest, i, r1, mid, r2, j);
      SpliceMember(N, M, d, rest, i, r1, mid, r2, k);
    }
  }

  lemma {:induction false} SpliceMember(N: nat, M: nat, d: nat, rest: seq<Node?>, i: nat, r1: set<object>,
                     mid: seq<Node?>, r2: set<object>, j: nat)
    requires Node.Group(N, M, d, rest, r1) && i <= |rest| && Node.Group(N, M, d, mid, r2)
    requires j < |rest| + |mid|
    ensures var n := (rest[..i] + mid + rest[i..])[j];
            && (j < i ==> n == rest[j] && Node.Member(N, M, d, n, r1))
            && (i <= j < i + |mid| ==> n == mid[j - i] && Node.Member(N, M, d, n, r2))
            && (i + |mid| <= j ==> n == rest[j - |mid|] && Node.Member(N, M, d, n, r1))
  {
  }

  /** The nodes that stand for an insertion's outcome. */
  ghost function Parts(node: Node, result: InsertionResult): seq<Node?> {
    match result
    case Kept => [node]
    case WasSplit(_, left, right) => [left, right]
  }

  lemma {:induction false} PartsGroup(N: nat, M: nat, d: nat, node: Node, result: InsertionResult, o: Outcome)
    requires Yields(N, M, d, node, result, o)
    ensures Node.Group(N, M, d, Parts(node, result), Footprint(node, result))
    ensures Node.Models(N, M, d, Parts(node, result), Footprint(node, result)) ==
            match o case Fits(t) => [t] case Split(l, _, r) => [l, r]
  {
    var ps, fp := Parts(node, result), Footprint(node, result);
    assert node.Own() <= node.Repr;
    assert result.WasSplit? ==> result.right.Own() <= result.right.Repr;
    assert forall i | 0 <= i < |ps| :: Node.Member(N, M, d, ps[i], fp);
  }

  /** The children of an inner node once the outcome for child `index` has taken its place. */
  ghost function Spliced(kids: seq<Node?>, index: nat, parts: seq<Node?>): seq<Node?>
    requires index < |kids|
  {
    kids[..index] + parts + kids[index + 1..]
  }

  ghost function SplicedModels(kids: seq<Tree>, index: nat, o: Outcome): seq<Tree>
    requires index < |kids|
  {
    kids[..index] + (match o case Fits(t) => [t] case Split(l, _, r) => [l, r]) + kids[index + 1..]
  }

  method InsertBelow(N: nat, M: nat, node: Node, d: nat, key: int, value: int) returns (result: InsertionResult)
    requires N >= 3 && M >= 2 && node.Valid(N, M, d)
    modifies node.Repr
    ensures Yields(N, M, d, node, result, BTreeInsert.Insert(N, M, old(node.Model(N, M, d)), d, key, value))
    ensures forall o | o in Footprint(node, result) :: o in old(node.Repr) || fresh(o)
    decreases d, 2
  {
    assert node.Own() <= node.Repr;
    if d == 0 {
      result := LeafInsert(N, M, node, key, value);
    } else {
      result := InnerInsert(N, M, node, d, key, value);
    }
  }

  /** What the insertion leaves belongs to the node or is new, so it stays apart from `outside`. */
  method InsertApart(N: nat, M: nat, node: Node, d: nat, key: int, value: int, ghost outside: set<object>)
    returns (result: InsertionResult)
    requires N >= 3 && M >= 2 && node.Valid(N, M, d) && outside !! node.Repr
    modifies node.Repr
    ensures Yields(N, M, d, node, result, BTreeInsert.Insert(N, M, old(node.Model(N, M, d)), d, key, value))
    ensures forall o | o in Footprint(node, result) :: o in old(node.Repr) || fresh(o)
    ensures outside !! Footprint(node, result)
    decreases d, 3
  {
    hide *;
    result := InsertBelow(N, M, node, d, key, value);
  }

  lemma OutsideChild(own: set<object>, region: set<object>, child: set<object>)
    requires own !! region && child <= region
    ensures own + (region - child) !! child
  {
  }

  lemma InsideNode(whole: set<object>, own: set<object>, rest: set<object>, foot: set<object>)
    requires own + rest !! foot && own !! rest && rest <= whole
    ensures own !! rest + foot && rest !! foot && forall o | o in rest + foot :: o in whole || o in foot
  {
  }

  method InsertIntoChild(N: nat, M: nat, node: Node, child: Node, d: nat, index: nat, key: int, value: int)
    returns (result: InsertionResult, ghost region: set<object>, ghost o: Outcome)
    requires N >= 3 && M >= 2 && d > 0 && node.Valid(N, M, d) && index <= node.numKeys
    requires child == node.children[index]
    modifies child.Repr
    ensures unchanged(node) && unchanged(node.keys) && unchanged(node.children)
    ensures var kids, m := old(node.children[..node.numKeys + 1]), old(node.Model(N, M, d));
            && o == BTreeInsert.Insert(N, M, m.kids[index], d - 1, key, value)
            && Node.Group(N, M, d - 1, Spliced(kids, index, Parts(child, result)), region)
            && Node.Models(N, M, d - 1, Spliced(kids, index, Parts(child, result)), region) ==
               SplicedModels(m.kids, index, o)
            && Matches(child, result, o)
    ensures region !! node.Own() && forall o | o in region :: o in old(node.Repr) || fresh(o)
    decreases d, 0, 0
  {
    hide Node.Valid, Node.Group, Node.Model, Node.Models, BTreeInsert.Insert, Node.Own, Footprint, Spliced, Parts;
    OwnParts(node);
    InnerParts(N, M, node, d);
    ghost var m, kids, r := node.Model(N, M, d), node.children[..node.numKeys + 1], node.Repr - node.Own();
    assert r !! node.Own();
    GroupWithout(N, M, d - 1, kids, index, r);
    ghost var rest, r1 := kids[..index] + kids[index + 1..], r - child.Repr;
    ghost var before := node.Repr;
    OutsideChild(node.Own(), r, child.Repr);
    result := InsertApart(N, M, child, d - 1, key, value, node.Own() + r1);
    o := BTreeInsert.Insert(N, M, m.kids[index], d - 1, key, value);
    region := r1 + Footprint(child, result);
    InsideNode(before, node.Own(), r1, Footprint(child, result));
    JoinParts(N, M, d - 1, kids, index, rest, r1, child, result, o);
  }

  /** The separator and left node of a result are those of the outcome. */
  ghost predicate Matches(node: Node, result: InsertionResult, o: Outcome) {
    match result
    case Kept => o.Fits?
    case WasSplit(key, left, _) => o.Split? && o.sep == key && left == node
  }

  lemma {:induction false} JoinParts(N: nat, M: nat, d: nat, kids: seq<Node?>, index: nat, rest: seq<Node?>, r1: set<object>,
                  child: Node, result: InsertionResult, o: Outcome)
    requires index < |kids| && rest == kids[..index] + kids[index + 1..]
    requires Node.Group(N, M, d, rest, r1) && Yields(N, M, d, child, result, o)
    requires r1 !! Footprint(child, result)
    ensures var r := r1 + Footprint(child, result);
            var ms := Node.Models(N, M, d, rest, r1);
            && Node.Group(N, M, d, Spliced(kids, index, Parts(child, result)), r)
            && Node.Models(N, M, d, Spliced(kids, index, Parts(child, result)), r) ==
               ms[..index] + (match o case Fits(t) => [t] case Split(l, _, r) => [l, r]) + ms[index..]
  {
    PartsGroup(N, M, d, child, result, o);
    GroupSplice(N, M, d, rest, index, r1, Parts(child, result), Footprint(child, result));
    assert rest[..index] == kids[..index] && rest[index..] == kids[index + 1..];
  }

  /** btree.h:465-485: an unsplit child needs nothing. */
  method PlaceResult(node: Node, child: Node, index: nat, result: InsertionResult)
    requires index <= node.numKeys < node.keys.Length && node.children.Length == node.keys.Length + 1
    requires child == node.children[index] && (result.WasSplit? ==> result.left == child)
    modifies node`numKeys, node.keys, node.children
    ensures node.numKeys == old(node.numKeys) + if result.Kept? then 0 else 1
    ensures node.keys[..node.numKeys] == var ks := old(node.keys[..node.numKeys]);
              if result.Kept? then ks else ks[..index] + [result.key] + ks[index..]
    ensures node.children[..node.numKeys + 1] ==
            Spliced(old(node.children[..node.numKeys + 1]), index, Parts(child, result))
  {
    ghost var ks, cs := node.keys[..node.numKeys], node.children[..node.numKeys + 1];
    assert ks[..index] == node.keys[..index] && ks[index..] == node.keys[index..node.numKeys];
    assert cs[..index] == node.children[..index];
    assert cs[index + 1..] == node.children[index + 1..node.numKeys + 1];
    if result.WasSplit? {
      PlaceSplit(node, index, result.key, result.left, result.right);
    } else {
      assert cs == cs[..index] + [child] + cs[index + 1..];
    }
  }

  lemma {:induction false} Assembled(N: nat, M: nat, node: Node, d: nat, t: Tree)
    requires d > 0 && !node.isLeaf && node.keys.Length == N && node.children.Length == N + 1
    requires node.numKeys <= N && node.keys != node.values && node.Own() <= node.Repr
    requires Node.Group(N, M, d - 1, node.children[..node.numKeys + 1], node.Repr - node.Own())
    requires t == Tree.Inner(node.keys[..node.numKeys],
                    Node.Models(N, M, d - 1, node.children[..node.numKeys + 1], node.Repr - node.Own()))
    ensures node.Valid(N, M, d) && node.Model(N, M, d) == t
  {
  }

  lemma OwnParts(node: Node)
    ensures node in node.Own() && node.keys in node.Own() && node.children in node.Own() && node.values in node.Own()
  {
  }

  /** The node takes in the result for its child, and `region` becomes the rest of its footprint. */
  method AdoptResult(N: nat, ghost M: nat, node: Node, child: Node, ghost d: nat, index: nat,
                     result: InsertionResult, ghost region: set<object>, ghost ms: seq<Tree>)
    requires d > 0 && !node.isLeaf && node.keys.Length == N && node.children.Length == N + 1
    requires node.keys != node.values && index <= node.numKeys < N && child == node.children[index]
    requires result.WasSplit? ==> result.left == child
    requires var parts := Spliced(node.children[..node.numKeys + 1], index, Parts(child, result));
             Node.Group(N, M, d - 1, parts, region) && Node.Models(N, M, d - 1, parts, region) == ms
    requires region !! node.Own()
    modifies node, node.keys, node.children
    ensures node.Repr == node.Own() + region && node.Valid(N, M, d)
    ensures var ks := old(node.keys[..node.numKeys]);
            node.Model(N, M, d) ==
            Tree.Inner(if result.Kept? then ks else ks[..index] + [result.key] + ks[index..], ms)
  {
    hide Node.Valid, Node.Group, Node.Model, Node.Models, Spliced, Parts, Node.Own;
    ghost var parts := Spliced(node.children[..node.numKeys + 1], index, Parts(child, result));
    OwnParts(node);
    PlaceResult(node, child, index, result);
    assert Node.Group(N, M, d - 1, parts, region);
    AssignRepr(N, M, node, d, region, Tree.Inner(node.keys[..node.numKeys], ms));
  }

  lemma AdoptIs(t: Tree, i: nat, result: InsertionResult, child: Node, o: Outcome)
    requires t.Inner? && i <= |t.seps| && |t.kids| == |t.seps| + 1 && Matches(child, result, o)
    ensures Adopt(t, i, o) ==
            Tree.Inner(if result.Kept? then t.seps else t.seps[..i] + [result.key] + t.seps[i..],
                  SplicedModels(t.kids, i, o))
  {
    if o.Fits? {
      assert t.kids[i := o.node] == SplicedModels(t.kids, i, o);
    }
  }

  method InnerInsertNonfull(N: nat, M: nat, node: Node, d: nat, key: int, value: int)
    requires N >= 3 && M >= 2 && d > 0 && node.Valid(N, M, d) && node.numKeys < N
    modifies node.Repr
    ensures node.Valid(N, M, d) && fresh(node.Repr - old(node.Repr))
    ensures node.Model(N, M, d) == InnerPut(N, M, old(node.Model(N, M, d)), d, key, value)
    decreases d, 0, 1
  {
    hide Node.Valid, Node.Group, Node.Model, Node.Models, Adopt, BTreeInsert.Insert;
    ghost var m := node.Model(N, M, d);
    InnerParts(N, M, node, d);
    var index := InnerPositionFor(key, node.keys, node.numKeys);
    var child := node.children[index];
    assert Node.Member(N, M, d - 1, node.children[..node.numKeys + 1][index], node.Repr - node.Own());
    var result, r, o := InsertIntoChild(N, M, node, child, d, index, key, value);
    AdoptResult(N, M, node, child, d, index, result, r, SplicedModels(m.kids, index, o));
    AdoptIs(m, index, result, child, o);
  }

  /** The objects of `region` that belong to one of the nodes. */
  ghost function Cover(nodes: seq<Node?>, region: set<object>): set<object>
    reads nodes
  {
    set o | o in region && exists i :: 0 <= i < |nodes| && nodes[i] != null && o in nodes[i].Repr
  }

  /** A stretch of a group is a group of its own. */
  lemma {:induction false} GroupPart(N: nat, M: nat, d: nat, nodes: seq<Node?>, lo: nat, part: seq<Node?>, region: set<object>)
    requires Node.Group(N, M, d, nodes, region) && lo + |part| <= |nodes|
    requires forall i | 0 <= i < |part| :: part[i] == nodes[lo + i]
    ensures Node.Group(N, M, d, part, Cover(part, region))
  {
    forall i | 0 <= i < |part| ensures Node.Member(N, M, d, part[i], Cover(part, region)) {
      PartMember(N, M, d, nodes, region, lo + i, part, i);
    }
    forall i, j | 0 <= i < j < |part| ensures part[i].Repr !! part[j].Repr {
      assert nodes[lo + i].Repr !! nodes[lo + j].Repr;
    }
  }

  lemma {:induction false} PartModels(N: nat, M: nat, d: nat, nodes: seq<Node?>, lo: nat, part: seq<Node?>, region: set<object>,
                   r: set<object>)
    requires Node.Group(N, M, d, nodes, region) && lo + |part| <= |nodes|
    requires forall i | 0 <= i < |part| :: part[i] == nodes[lo + i]
    requires Node.Group(N, M, d, part, r)
    ensures Node.Models(N, M, d, part, r) == Node.Models(N, M, d, nodes, region)[lo..lo + |part|]
  {
  }

  lemma {:induction false} CoversApart(N: nat, M: nat, d: nat, nodes: seq<Node?>, th: nat, region: set<object>)
    requires Node.Group(N, M, d, nodes, region) && th <= |nodes|
    ensures Cover(nodes[..th], region) !! Cover(nodes[th..], region)
  {
  }

  lemma {:induction false} PartMember(N: nat, M: nat, d: nat, nodes: seq<Node?>, region: set<object>, i: nat, part: seq<Node?>, j: nat)
    requires Node.Group(N, M, d, nodes, region) && i < |nodes| && j < |part| && part[j] == nodes[i]
    ensures Node.Member(N, M, d, part[j], Cover(part, region))
  {
    assert Node.Member(N, M, d, nodes[i], region);
    assert part[j].Valid(N, M, d) && part[j] in part[j].Own();
    forall o | o in part[j].Repr ensures o in Cover(part, region) {
    }
  }

  /** btree.h:405-420: the new sibling takes the separators and children from `threshold` on, and
      the separator in between is handed to the parent. */
  method MoveUpperChildren(N: nat, ghost M: nat, node: Node, ghost d: nat) returns (sep: int, sibling: Node)
    requires N >= 3 && d > 0 && node.Valid(N, M, d) && node.numKeys == N
    modifies node`numKeys, node`Repr
    ensures node.Valid(N, M, d) && sibling.Valid(N, M, d) && node.Repr !! sibling.Repr
    ensures forall o | o in node.Repr + sibling.Repr :: o in old(node.Repr) || fresh(o)
    ensures node.numKeys < N && sibling.numKeys < N
    ensures var m := old(node.Model(N, M, d));
            && sep == m.seps[(N + 1) / 2 - 1]
            && node.Model(N, M, d) == LeftHalf(N, m) && sibling.Model(N, M, d) == RightHalf(N, m)
  {
    ghost var m, before := node.Model(N, M, d), node.Repr;
    ghost var kids := node.children[..node.numKeys + 1];
    InnerParts(N, M, node, d);
    hide *;
    ghost var r1, r2 := SplitGroup(N, M, d - 1, kids, (N + 1) / 2, node.Repr - node.Own());
    sep, sibling := SplitOff(N, M, node, d, (N + 1) / 2, kids, r1, r2, m);
    SumsApart(node.Own(), r1, sibling.Own(), r2);
    SumsWithin(before, node.Own(), r1, sibling.Own(), r2);
  }

  lemma SumsApart(a: set<object>, b: set<object>, c: set<object>, d: set<object>)
    requires a !! c && a !! d && b !! c && b !! d
    ensures a + b !! c + d
  {
  }

  lemma SumsWithin(whole: set<object>, a: set<object>, b: set<object>, c: set<object>, d: set<object>)
    requires a <= whole && b + d <= whole
    ensures forall o | o in (a + b) + (c + d) :: o in whole || o in c
  {
  }

  method SplitOff(N: nat, ghost M: nat, node: Node, ghost d: nat, threshold: nat, ghost kids: seq<Node?>,
                  ghost r1: set<object>, ghost r2: set<object>, ghost m: Tree) returns (sep: int, sibling: Node)
    requires d > 0 && !node.isLeaf && node.keys.Length == N == node.numKeys && node.children.Length == N + 1
    requires node.keys != node.values && N >= 3 && threshold == (N + 1) / 2 && kids == node.children[..]
    requires r1 !! node.Own() && r2 !! node.Own() && r1 !! r2
    requires m.Inner? && m.seps == node.keys[..] && |m.kids| == N + 1
    requires Node.Group(N, M, d - 1, kids[..threshold], r1)
    requires Node.Models(N, M, d - 1, kids[..threshold], r1) == m.kids[..threshold]
    requires Node.Group(N, M, d - 1, kids[threshold..], r2)
    requires Node.Models(N, M, d - 1, kids[threshold..], r2) == m.kids[threshold..]
    modifies node`numKeys, node`Repr
    ensures node.Repr == node.Own() + r1 && fresh(sibling.Own()) && sibling.Repr == sibling.Own() + r2
    ensures node.numKeys == threshold - 1 && sibling.numKeys == N - threshold && sep == m.seps[threshold - 1]
    ensures node.Valid(N, M, d) && sibling.Valid(N, M, d)
    ensures node.Model(N, M, d) == LeftHalf(N, m) && sibling.Model(N, M, d) == RightHalf(N, m)
  {
    hide Node.Valid, Node.Group, Node.Model, Node.Models;
    assert node.children[threshold..] == kids[threshold..];
    sibling := PeelSibling(N, M, node, d, threshold, r2, m);
    assert node.children[..threshold] == kids[..threshold];
    Restrict(N, M, node, d, threshold - 1, r1, m);
    sep := node.keys[threshold - 1];
  }

  method PeelSibling(N: nat, ghost M: nat, node: Node, ghost d: nat, threshold: nat,
                     ghost region: set<object>, ghost m: Tree) returns (sibling: Node)
    requires d > 0 && 0 < threshold < N == node.numKeys == node.keys.Length && node.children.Length == N + 1
    requires m.Inner? && |m.kids| == N + 1 && m.seps == node.keys[..]
    requires Node.Group(N, M, d - 1, node.children[threshold..], region)
    requires Node.Models(N, M, d - 1, node.children[threshold..], region) == m.kids[threshold..]
    ensures fresh(sibling) && fresh(sibling.Own()) && sibling.Repr == sibling.Own() + region
    ensures sibling.numKeys == N - threshold && sibling.Valid(N, M, d)
    ensures sibling.Model(N, M, d) == Tree.Inner(m.seps[threshold..], m.kids[threshold..])
  {
    ghost var kids := node.children[threshold..];
    sibling := CopyUpper(N, node, threshold);
    assert sibling.children[..sibling.numKeys + 1] == kids;
    AssignRepr(N, M, sibling, d, region, Tree.Inner(m.seps[threshold..], m.kids[threshold..]));
  }

  lemma {:induction false} FrontGroup(N: nat, M: nat, d: nat, nodes: seq<Node?>, th: nat, region: set<object>)
    requires Node.Group(N, M, d, nodes, region) && th <= |nodes|
    ensures Node.Group(N, M, d, nodes[..th], Cover(nodes[..th], region))
    ensures Node.Models(N, M, d, nodes[..th], Cover(nodes[..th], region)) ==
            Node.Models(N, M, d, nodes, region)[..th]
  {
    GroupPart(N, M, d, nodes, 0, nodes[..th], region);
    PartModels(N, M, d, nodes, 0, nodes[..th], region, Cover(nodes[..th], region));
  }

  lemma {:induction false} BackGroup(N: nat, M: nat, d: nat, nodes: seq<Node?>, th: nat, region: set<object>)
    requires Node.Group(N, M, d, nodes, region) && th <= |nodes|
    ensures Node.Group(N, M, d, nodes[th..], Cover(nodes[th..], region))
    ensures Node.Models(N, M, d, nodes[th..], Cover(nodes[th..], region)) ==
            Node.Models(N, M, d, nodes, region)[th..]
  {
    GroupPart(N, M, d, nodes, th, nodes[th..], region);
    PartModels(N, M, d, nodes, th, nodes[th..], region, Cover(nodes[th..], region));
  }

  lemma SplitGroup(N: nat, M: nat, d: nat, nodes: seq<Node?>, th: nat, region: set<object>)
    returns (r1: set<object>, r2: set<object>)
    requires Node.Group(N, M, d, nodes, region) && th <= |nodes|
    ensures r1 !! r2 && r1 + r2 <= region
    ensures Node.Group(N, M, d, nodes[..th], r1) && Node.Group(N, M, d, nodes[th..], r2)
    ensures Node.Models(N, M, d, nodes[..th], r1) == Node.Models(N, M, d, nodes, region)[..th]
    ensures Node.Models(N, M, d, nodes[th..], r2) == Node.Models(N, M, d, nodes, region)[th..]
  {
    r1, r2 := Cover(nodes[..th], region), Cover(nodes[th..], region);
    FrontGroup(N, M, d, nodes, th, region);
    BackGroup(N, M, d, nodes, th, region);
    CoversApart(N, M, d, nodes, th, region);
  }

  /** The node keeps its first `numKeys` separators and the children around them. */
  method Restrict(ghost N: nat, ghost M: nat, node: Node, ghost d: nat, numKeys: nat,
                  ghost region: set<object>, ghost m: Tree)
    requires d > 0 && !node.isLeaf && node.keys.Length == N && node.children.Length == N + 1
    requires node.keys != node.values && numKeys <= N && region !! node.Own()
    requires Node.Group(N, M, d - 1, node.children[..numKeys + 1], region)
    requires m.Inner? && |m.kids| > numKeys && |m.seps| >= numKeys && m.seps[..numKeys] == node.keys[..numKeys]
    requires Node.Models(N, M, d - 1, node.children[..numKeys + 1], region) == m.kids[..numKeys + 1]
    modifies node`numKeys, node`Repr
    ensures node.numKeys == numKeys && node.Repr == node.Own() + region
    ensures node.Valid(N, M, d)
    ensures node.Model(N, M, d) == Tree.Inner(m.seps[..numKeys], m.kids[..numKeys + 1])
  {
    node.numKeys := numKeys;
    AssignRepr(N, M, node, d, region, Tree.Inner(m.seps[..numKeys], m.kids[..numKeys + 1]));
  }

  ghost method AssignRepr(N: nat, M: nat, node: Node, d: nat, region: set<object>, t: Tree)
    requires d > 0 && !node.isLeaf && node.keys.Length == N && node.children.Length == N + 1
    requires node.numKeys <= N && node.keys != node.values && region !! node.Own()
    requires Node.Group(N, M, d - 1, node.children[..node.numKeys + 1], region)
    requires t == Tree.Inner(node.keys[..node.numKeys],
                    Node.Models(N, M, d - 1, node.children[..node.numKeys + 1], region))
    modifies node`Repr
    ensures node.Repr == node.Own() + region && node.Valid(N, M, d) && node.Model(N, M, d) == t
  {
    hide Node.Valid, Node.Group, Node.Model, Node.Models;
    ghost var kids := node.children[..node.numKeys + 1];
    ghost var ms := Node.Models(N, M, d - 1, kids, region);
    node.Repr := node.Own() + region;
    assert node.Repr - node.Own() == region;
    assert Node.Group(N, M, d - 1, kids, region) && Node.Models(N, M, d - 1, kids, region) == ms;
    Assembled(N, M, node, d, t);
  }

  method CopyUpper(N: nat, node: Node, threshold: nat) returns (sibling: Node)
    requires 0 < threshold < N == node.numKeys == node.keys.Length && node.children.Length == N + 1
    ensures fresh(sibling) && fresh(sibling.Own()) && sibling.Repr == sibling.Own() && !sibling.isLeaf
    ensures sibling.keys.Length == N && sibling.children.Length == N + 1 && sibling.keys != sibling.values
    ensures sibling.numKeys == N - threshold
    ensures sibling.keys[..N - threshold] == node.keys[threshold..]
    ensures sibling.children[..N - threshold + 1] == node.children[threshold..]
  {
    sibling := new Node.NewInner(N);
    sibling.numKeys := node.numKeys - threshold;
    var i := 0;
    while i < sibling.numKeys
      invariant i <= sibling.numKeys == N - threshold && sibling.Repr == sibling.Own()
      invariant forall k | 0 <= k < i ::
                  sibling.keys[k] == node.keys[threshold + k] && sibling.children[k] == node.children[threshold + k]
    {
      sibling.keys[i] := node.keys[threshold + i];
      sibling.children[i] := node.children[threshold + i];
      i := i + 1;
    }
    sibling.children[sibling.numKeys] := node.children[node.numKeys];
  }

  /** Insertion into one of two nodes that share nothing. */
  method InsertBeside(N: nat, M: nat, node: Node, ghost other: Node, d: nat, key: int, value: int)
    requires N >= 3 && M >= 2 && d > 0 && node.Valid(N, M, d) && node.numKeys < N
    requires other.Valid(N, M, d) && node.Repr !! other.Repr
    modifies node.Repr
    ensures node.Valid(N, M, d) && other.Valid(N, M, d) && node.Repr !! other.Repr
    ensures fresh(node.Repr - old(node.Repr)) && other.Repr == old(other.Repr)
    ensures node.Model(N, M, d) == InnerPut(N, M, old(node.Model(N, M, d)), d, key, value)
    ensures other.Model(N, M, d) == old(other.Model(N, M, d))
    decreases d, 0, 2
  {
    assert other.Own() <= other.Repr;
    InnerInsertNonfull(N, M, node, d, key, value);
  }

  /** inner_insert. */
  method InnerInsert(N: nat, M: nat, node: Node, d: nat, key: int, value: int) returns (result: InsertionResult)
    requires N >= 3 && M >= 2 && d > 0 && node.Valid(N, M, d)
    modifies node.Repr
    ensures Yields(N, M, d, node, result, BTreeInsert.Insert(N, M, old(node.Model(N, M, d)), d, key, value))
    ensures forall o | o in Footprint(node, result) :: o in old(node.Repr) || fresh(o)
    decreases d, 1, 1
  {
    if node.numKeys == N {
      result := InnerSplit(N, M, node, d, key, value);
    } else {
      InnerInsertNonfull(N, M, node, d, key, value);
      result := Kept;
    }
  }

  /** btree.h:404-427, the early split of a full node on the way down. */
  method InnerSplit(N: nat, M: nat, node: Node, d: nat, key: int, value: int) returns (result: InsertionResult)
    requires N >= 3 && M >= 2 && d > 0 && node.Valid(N, M, d) && node.numKeys == N
    modifies node.Repr
    ensures Yields(N, M, d, node, result, BTreeInsert.Insert(N, M, old(node.Model(N, M, d)), d, key, value))
    ensures forall o | o in Footprint(node, result) :: o in old(node.Repr) || fresh(o)
    decreases d, 1, 0
  {
    InnerParts(N, M, node, d);
    hide *;
    ghost var m := node.Model(N, M, d);
    var sep, sibling := MoveUpperChildren(N, M, node, d);
    InsertIntoHalf(N, M, node, sibling, sep, d, key, value, m);
    result := WasSplit(sep, node, sibling);
  }

  method InsertIntoHalf(N: nat, M: nat, node: Node, sibling: Node, sep: int, d: nat, key: int, value: int,
                        ghost m: Tree)
    requires N >= 3 && M >= 2 && d > 0 && Shape(N, M, m, d) && |m.seps| == N
    requires node.Valid(N, M, d) && sibling.Valid(N, M, d) && node.Repr !! sibling.Repr
    requires node.numKeys < N && sibling.numKeys < N && sep == m.seps[(N + 1) / 2 - 1]
    requires node.Model(N, M, d) == LeftHalf(N, m) && sibling.Model(N, M, d) == RightHalf(N, m)
    modifies node.Repr, sibling.Repr
    ensures Yields(N, M, d, node, WasSplit(sep, node, sibling), BTreeInsert.Insert(N, M, m, d, key, value))
    ensures forall o | o in node.Repr + sibling.Repr :: o in old(node.Repr + sibling.Repr) || fresh(o)
    decreases d, 0, 3
  {
    hide Node.Valid, Node.Group, Node.Model;
    ghost var o := BTreeInsert.Insert(N, M, m, d, key, value);
    if key < sep {
      InsertBeside(N, M, node, sibling, d, key, value);
      assert o == Split(InnerPut(N, M, LeftHalf(N, m), d, key, value), sep, RightHalf(N, m));
    } else {
      InsertBeside(N, M, sibling, node, d, key, value);
      assert o == Split(LeftHalf(N, m), sep, InnerPut(N, M, RightHalf(N, m), d, key, value));
    }
  }

  // ---------------------------------------------------------------- tombstones on the heap

  /** The leaf node that `key` is routed to. */
  ghost function LeafNode(N: nat, M: nat, node: Node, d: nat, key: int): (leaf: Node)
    requires node.Valid(N, M, d)
    reads node, node.Repr
    ensures leaf in node.Repr && leaf.Own() <= node.Repr && leaf.Valid(N, M, 0)
    ensures leaf.Model(N, M, 0) == LeafFor(node.Model(N, M, d), d, key)
    decreases d
  {
    if d == 0 then node
    else
      var i := InnerPos(node.keys[..node.numKeys], key);
      var kids, region := node.children[..node.numKeys + 1], node.Repr - node.Own();
      assert Node.Group(N, M, d - 1, kids, region);
      assert Node.Member(N, M, d - 1, kids[i], region);
      LeafNode(N, M, kids[i], d - 1, key)
  }

  /** A node, the leaf below it that a key is routed to, and, for an inner node, the child on the
      way: its position, all the children and their footprint. */
  datatype Route = Route(N: nat, M: nat, node: Node, d: nat, key: int, leaf: Node,
                         i: nat, kids: seq<Node>, region: set<object>)
  {
    function Below(): Route
      requires i < |kids| && d > 0
    {
      Route(N, M, kids[i], d - 1, key, leaf, 0, [], {})
    }
  }

  /** Zeroing one value slot of that leaf turns the whole tree into its tombstoned form. */
  twostate lemma {:induction false} TombstoneOnHeap(r: Route)
    requires old(r.node.Valid(r.N, r.M, r.d)) && r.leaf == old(LeafNode(r.N, r.M, r.node, r.d, r.key))
    requires forall o | o in old(r.node.Repr) && o != r.leaf.values :: unchanged(o)
    requires r.leaf.Valid(r.N, r.M, 0) && r.leaf.Repr == old(r.leaf.Repr)
    requires r.leaf.Model(r.N, r.M, 0) == Tombstone(old(r.leaf.Model(r.N, r.M, 0)), 0, r.key)
    ensures r.node.Valid(r.N, r.M, r.d) && r.node.Repr == old(r.node.Repr)
    ensures r.node.Model(r.N, r.M, r.d) == Tombstone(old(r.node.Model(r.N, r.M, r.d)), r.d, r.key)
    decreases r.d, 1
  {
    if r.d > 0 {
      TombstoneOnPath(r);
    }
  }

  twostate lemma {:induction false} TombstoneOnPath(r: Route)
    requires old(r.node.Valid(r.N, r.M, r.d)) && r.leaf == old(LeafNode(r.N, r.M, r.node, r.d, r.key)) && r.d > 0
    requires forall o | o in old(r.node.Repr) && o != r.leaf.values :: unchanged(o)
    requires r.leaf.Valid(r.N, r.M, 0) && r.leaf.Repr == old(r.leaf.Repr)
    requires r.leaf.Model(r.N, r.M, 0) == Tombstone(old(r.leaf.Model(r.N, r.M, 0)), 0, r.key)
    ensures r.node.Valid(r.N, r.M, r.d) && r.node.Repr == old(r.node.Repr)
    ensures r.node.Model(r.N, r.M, r.d) == Tombstone(old(r.node.Model(r.N, r.M, r.d)), r.d, r.key)
    decreases r.d, 0
  {
    hide Node.Valid, Node.Group, Node.Model, Node.Models, LeafNode, Tombstone;
    var s := RouteOnHeap(r);
    TombstoneOnHeap(s.Below());
    KidsAfter(s);
    AfterChild(s);
  }

  twostate lemma {:induction false} RouteOnHeap(r: Route) returns (s: Route)
    requires old(r.node.Valid(r.N, r.M, r.d)) && r.d > 0
    requires r.leaf == old(LeafNode(r.N, r.M, r.node, r.d, r.key))
    requires forall o | o in old(r.node.Repr) && o != r.leaf.values :: unchanged(o)
    ensures old(allocated(s)) && s == r.(i := s.i, kids := s.kids, region := s.region)
    ensures s.i == old(InnerPos(r.node.keys[..r.node.numKeys], r.key)) < |s.kids|
    ensures s.kids == old(r.node.children[..r.node.numKeys + 1])
    ensures s.region == old(r.node.Repr) - r.node.Own() && old(Node.Group(r.N, r.M, r.d - 1, s.kids, s.region))
    ensures old(s.kids[s.i].Valid(r.N, r.M, r.d - 1)) && old(s.kids[s.i].Repr) <= s.region
    ensures r.leaf == old(LeafNode(r.N, r.M, s.kids[s.i], r.d - 1, r.key))
    ensures r.leaf.values in old(s.kids[s.i].Repr)
    ensures unchanged(r.node) && unchanged(r.node.keys) && unchanged(r.node.children)
  {
    var ks, region := old(r.node.children[..r.node.numKeys + 1]), old(r.node.Repr) - r.node.Own();
    assert old(Node.Group(r.N, r.M, r.d - 1, ks, region));
    assert forall j | 0 <= j < |ks| :: old(Node.Member(r.N, r.M, r.d - 1, ks[j], region));
    s := r.(i := old(InnerPos(r.node.keys[..r.node.numKeys], r.key)), kids := ks, region := region);
  }

  /** Only one node of a group was touched. */
  twostate lemma {:induction false} KidsAfter(s: Route)
    requires s.i < |s.kids| && s.d > 0 && old(Node.Group(s.N, s.M, s.d - 1, s.kids, s.region))
    requires s.leaf.values in old(s.kids[s.i].Repr)
    requires forall o | o in s.region && o != s.leaf.values :: unchanged(o)
    requires s.kids[s.i].Valid(s.N, s.M, s.d - 1) && s.kids[s.i].Repr == old(s.kids[s.i].Repr)
    ensures Node.Group(s.N, s.M, s.d - 1, s.kids, s.region)
    ensures Node.Models(s.N, s.M, s.d - 1, s.kids, s.region) ==
            old(Node.Models(s.N, s.M, s.d - 1, s.kids, s.region))[s.i := s.kids[s.i].Model(s.N, s.M, s.d - 1)]
  {
    var kids, i := s.kids, s.i;
    forall j | 0 <= j < |kids|
      ensures Node.Member(s.N, s.M, s.d - 1, kids[j], s.region) && kids[j].Repr == old(kids[j].Repr)
      ensures j != i ==> kids[j].Model(s.N, s.M, s.d - 1) == old(kids[j].Model(s.N, s.M, s.d - 1))
    {
      assert old(Node.Member(s.N, s.M, s.d - 1, kids[j], s.region));
      if j < i {
        assert old(kids[j].Repr !! kids[i].Repr);
      } else if i < j {
        assert old(kids[i].Repr !! kids[j].Repr);
      }
    }
  }

  lemma TombstoneInner(t: Tree, d: nat, key: int, i: nat)
    requires d > 0 && t.Inner? && i == InnerPos(t.seps, key) && i < |t.kids|
    ensures Tombstone(t, d, key) == Tree.Inner(t.seps, t.kids[i := Tombstone(t.kids[i], d - 1, key)])
  {
  }

  twostate lemma {:induction false} AfterChild(s: Route)
    requires old(s.node.Valid(s.N, s.M, s.d)) && s.d > 0 && s.i < |s.kids|
    requires s.i == old(InnerPos(s.node.keys[..s.node.numKeys], s.key))
    requires unchanged(s.node) && unchanged(s.node.keys) && unchanged(s.node.children)
    requires s.kids == old(s.node.children[..s.node.numKeys + 1]) && s.region == old(s.node.Repr) - s.node.Own()
    requires old(Node.Group(s.N, s.M, s.d - 1, s.kids, s.region)) && Node.Group(s.N, s.M, s.d - 1, s.kids, s.region)
    requires Node.Models(s.N, s.M, s.d - 1, s.kids, s.region) ==
             (var ms := old(Node.Models(s.N, s.M, s.d - 1, s.kids, s.region));
              ms[s.i := Tombstone(ms[s.i], s.d - 1, s.key)])
    ensures s.node.Valid(s.N, s.M, s.d)
    ensures s.node.Model(s.N, s.M, s.d) == Tombstone(old(s.node.Model(s.N, s.M, s.d)), s.d, s.key)
  {
    hide Node.Group, Node.Models, Shape, Tombstone;
    var m := old(s.node.Model(s.N, s.M, s.d));
    assert m.kids == old(Node.Models(s.N, s.M, s.d - 1, s.kids, s.region));
    assert m.seps == old(s.node.keys[..s.node.numKeys]);
    TombstoneInner(m, s.d, s.key, s.i);
    assert s.node.children[..s.node.numKeys + 1] == s.kids;
    Assembled(s.N, s.M, s.node, s.d, Tree.Inner(m.seps, m.kids[s.i := Tombstone(m.kids[s.i], s.d - 1, s.key)]));
  }

  // ---------------------------------------------------------------- the tree

  class BPlusTree {
    const N: nat
    const M: nat
    var depth: nat
    var root: Node

    ghost predicate Valid()
      reads this, root, root.Repr
    {
      && N >= 3 && M >= 2 && this !in root.Repr
      && root.Valid(N, M, depth) && Inv(N, M, root.Model(N, M, depth), depth, Unbounded)
    }

    ghost function Repr(): set<object>
      reads this, root
    {
      {this} + root.Repr
    }

    /** Everything physically stored, tombstones included, in key order. */
    ghost function Stored(): seq<Entry>
      requires Valid()
      reads this, root, root.Repr
    {
      Entries(root.Model(N, M, depth))
    }

    /** The finite ordered map that the tree stands for: live keys and their latest values. */
    ghost function Map(): map<int, int>
      requires Valid()
      reads this, root, root.Repr
    {
      Contents(Stored())
    }

    /** The slot that the equality test of an insertion would look at is an unused, zero one and
        the key is 0: the pair would be written there and never be found again. */
    ghost predicate LosesKey(key: int)
      requires Valid()
      reads this, root, root.Repr
    {
      Loses(N, M, root.Model(N, M, depth), depth, key)
    }

    constructor (n: nat, m: nat)
      requires n > 2 && m > 1
      ensures Valid() && fresh(Repr()) && N == n && M == m
      ensures Map() == map[] && Stored() == []
    {
      N, M, depth := n, m, 0;
      root := new Node.NewLeaf(m);
      new;
      assert Contents(Stored()) == map[];
    }

    method Insert(key: int, value: int)
      requires Valid()
      modifies Repr()
      ensures Valid() && fresh(Repr() - old(Repr()))
      ensures Stored() == if old(LosesKey(key)) then old(Stored()) else Upsert(old(Stored()), key, value)
      ensures key != 0 ==> !old(LosesKey(key))
      ensures Map() == Assign(old(Map()), key, value) <==> value == 0 || !old(LosesKey(key))
    {
      hide Node.Valid, Node.Model, Node.Group, Inv, Loses, Contents, Upsert;
      ghost var t := root.Model(N, M, depth);
      RootGood(N, M, t, depth, key, value);
      InsertMap(N, M, t, depth, key, value);
      ghost var d, rep := depth, root.Repr;
      root, depth := InsertAtRoot(N, M, root, depth, key, value);
      assert this !in root.Repr && fresh(root.Repr - rep);
      assert Stored() == BTreeInsert.Stored(N, M, t, d, key, value);
    }

    /** `value` is what the out-pointer receives: 0 when the key was never stored. */
    method Find(key: int) returns (found: bool, value: int)
      requires Valid()
      ensures found <==> key in Map()
      ensures value == if found then Map()[key] else 0
    {
      hide Node.Valid, Node.Model, Node.Group, Inv, LeafFor, Entries;
      FindRight(N, M, root.Model(N, M, depth), depth, Unbounded, key);
      MapLookup(Stored(), key);
      var node := FindLeaf(N, M, root, depth, key);
      LeafParts(N, M, node);
      var index := LeafPositionFor(key, node.keys, node.numKeys);
      if index < node.numKeys && node.keys[index] == key {
        value := node.values[index];
        found := value != 0;
      } else {
        found, value := false, 0;
      }
    }

    /** The unguarded read at btree.h:158 stays inside the key array. */
    ghost predicate DelInBounds(key: int)
      requires Valid()
      reads this, root, root.Repr
    {
      SlotOf(LeafFor(root.Model(N, M, depth), depth, key), key) < M
    }

    lemma OwnsRoot()
      requires Valid()
      ensures root in root.Repr
    {
      assert root.Valid(N, M, depth);
    }

    /** It leaves the array exactly when the leaf is full and the key is above all of its keys. */
    lemma OutOfBoundsExactly(key: int)
      requires Valid()
      ensures var leaf := LeafFor(root.Model(N, M, depth), depth, key);
              && leaf.Leaf? && |leaf.values| <= |leaf.keys| == M
              && (!DelInBounds(key) <==> |leaf.values| == M && forall i | 0 <= i < M :: leaf.keys[i] < key)
    {
      hide Node.Valid, Node.Model, Inv;
      FindRight(N, M, root.Model(N, M, depth), depth, Unbounded, key);
    }

    /** It stays inside whenever the key is live, which the caller checks first (tpcctables.cc:643-645). */
    lemma PresentInBounds(key: int)
      requires Valid() && key in Map()
      ensures DelInBounds(key)
    {
      hide Node.Valid, Node.Model, Inv;
      FindRight(N, M, root.Model(N, M, depth), depth, Unbounded, key);
    }

    /** Deletes by writing 0 over the value; `found` also tells of a zero slot taken for key 0. */
    method Del(key: int) returns (found: bool)
      requires Valid() && DelInBounds(key)
      modifies Repr()
      ensures Valid() && Repr() == old(Repr())
      ensures Map() == old(Map()) - {key}
      ensures KeySet(Stored()) == old(KeySet(Stored()))
      ensures found <==> key in KeySet(Stored()) || old(LosesKey(key))
    {
      hide Node.Valid, Node.Model, Node.Group, Inv, LeafNode;
      DelRight(N, M, root.Model(N, M, depth), depth, key);
      var node := FindLeaf(N, M, root, depth, key);
      found := DelInLeaf(N, M, root, node, depth, key);
    }

    /** The greatest live key below `key`; a tombstone in its place restarts the search from there. */
    method FindLastLessThan(key: int) returns (found: bool, value: int, outKey: int)
      requires Valid()
      ensures found ==> IsLastLessThan(Map(), key, outKey) && value == Map()[outKey]
      ensures !found ==> forall k | k in Map() :: key <= k
      decreases Lower(Stored(), key)
    {
      hide Node.Valid, Node.Model, Node.Group, Inv, LeafBefore, Contents, Entries;
      found, value, outKey := false, 0, 0;
      PreviousRight(N, M, root.Model(N, M, depth), depth, Unbounded, key);
      EntriesSorted(N, M, root.Model(N, M, depth), depth, Unbounded);
      var leaf := FindLeafBefore(N, M, root, depth, key);
      LeafParts(N, M, leaf);
      var pos: int := LeafPositionFor(key, leaf.keys, leaf.numKeys);
      // In the code `pos` is unsigned: below 0 it wraps to a number past `num_keys`, here -1.
      pos := pos - 1;
      if pos >= 0 && key == leaf.keys[pos] {
        pos := pos - 1;
      }
      if pos >= 0 {
        ghost var e := Entry(leaf.keys[pos], leaf.values[pos]);
        if leaf.values[pos] != 0 {
          LivePrevious(Stored(), key, e);
          return true, leaf.values[pos], leaf.keys[pos];
        } else {
          SkipTombstone(Stored(), key, e);
          found, value, outKey := FindLastLessThan(leaf.keys[pos]);
        }
      } else {
        NoPrevious(Stored(), key);
      }
    }
  }

  lemma {:induction false} LeafParts(N: nat, M: nat, leaf: Node)
    requires leaf.Valid(N, M, 0)
    ensures leaf.numKeys <= leaf.keys.Length == leaf.values.Length == M && leaf.Repr == leaf.Own()
    ensures leaf.Model(N, M, 0) == Tree.Leaf(leaf.keys[..], leaf.values[..leaf.numKeys])
  {
  }

  /** btree.h:171-183: the leaf that would hold the predecessor of `key`. */
  method FindLeafBefore(ghost N: nat, ghost M: nat, root: Node, depth: nat, key: int) returns (node: Node)
    requires root.Valid(N, M, depth)
    ensures node.Valid(N, M, 0) && node.Model(N, M, 0) == LeafBefore(root.Model(N, M, depth), depth, key)
  {
    hide *;
    node := root;
    var d := depth;
    while d != 0
      invariant node.Valid(N, M, d)
      invariant LeafBefore(node.Model(N, M, d), d, key) == LeafBefore(root.Model(N, M, depth), depth, key)
    {
      node := StepBefore(N, M, node, d, key);
      d := d - 1;
    }
    LeafBeforeHere(node.Model(N, M, 0), key);
  }

  lemma {:induction false} LeafBeforeHere(t: Tree, key: int)
    ensures LeafBefore(t, 0, key) == t
  {
  }

  method StepBefore(ghost N: nat, ghost M: nat, node: Node, ghost d: nat, key: int) returns (child: Node)
    requires d > 0 && node.Valid(N, M, d)
    ensures child.Valid(N, M, d - 1)
    ensures LeafBefore(node.Model(N, M, d), d, key) == LeafBefore(child.Model(N, M, d - 1), d - 1, key)
  {
    hide Node.Valid, Node.Group, Node.Model;
    InnerParts(N, M, node, d);
    var pos := PositionBefore(key, node.keys, node.numKeys);
    child := Descend(N, M, node, d, pos);
  }

  method PositionBefore(key: int, keys: array<int>, numKeys: nat) returns (pos: nat)
    requires numKeys <= keys.Length
    ensures pos == PosBefore(keys[..numKeys], key)
  {
    pos := InnerPositionFor(key, keys, numKeys);
    // rewind when they are equal
    if pos > 0 && key == keys[pos - 1] {
      pos := pos - 1;
    }
  }

  lemma {:induction false} InnerParts(N: nat, M: nat, node: Node, d: nat)
    requires d > 0 && node.Valid(N, M, d)
    ensures !node.isLeaf && node.numKeys <= N == node.keys.Length && node.children.Length == N + 1
    ensures node.keys != node.values && node.Own() <= node.Repr
    ensures Node.Group(N, M, d - 1, node.children[..node.numKeys + 1], node.Repr - node.Own())
    ensures var m := node.Model(N, M, d);
            && m.Inner? && m.seps == node.keys[..node.numKeys] && |m.kids| == node.numKeys + 1
            && m.kids == Node.Models(N, M, d - 1, node.children[..node.numKeys + 1], node.Repr - node.Own())
  {
  }

  /** btree.h:157-163. */
  method DelInLeaf(ghost N: nat, ghost M: nat, ghost root: Node, node: Node, ghost depth: nat, key: int)
    returns (found: bool)
    requires root.Valid(N, M, depth) && node == LeafNode(N, M, root, depth, key)
    requires SlotOf(LeafFor(root.Model(N, M, depth), depth, key), key) < M
    modifies node.values
    ensures root.Valid(N, M, depth) && root.Repr == old(root.Repr)
    ensures root.Model(N, M, depth) == Tombstone(old(root.Model(N, M, depth)), depth, key)
    ensures var leaf := old(LeafFor(root.Model(N, M, depth), depth, key));
            found <==> leaf.Leaf? && SlotOf(leaf, key) < |leaf.keys| && leaf.keys[SlotOf(leaf, key)] == key
  {
    var index := LeafPositionFor(key, node.keys, node.numKeys);
    assert node.Model(N, M, 0) == LeafFor(root.Model(N, M, depth), depth, key);
    found := node.keys[index] == key;
    if found {
      ZeroValue(N, M, node, index, key);
    }
    TombstoneOnHeap(Route(N, M, root, depth, key, node, 0, [], {}));
  }

  method ZeroValue(ghost N: nat, ghost M: nat, node: Node, index: nat, ghost key: int)
    requires node.Valid(N, M, 0) && index < M && node.keys[index] == key
    requires index == LeafPos(node.keys[..], node.numKeys, key)
    modifies node.values
    ensures node.Valid(N, M, 0) && node.Model(N, M, 0) == Tombstone(old(node.Model(N, M, 0)), 0, key)
  {
    ghost var m := node.Model(N, M, 0);
    node.values[index] := 0;
    assert index < node.numKeys ==> node.values[..node.numKeys] == m.values[index := 0];
    assert index == node.numKeys ==> node.values[..node.numKeys] == m.values;
  }

  /** The descent of `find` and `del`. */
  method FindLeaf(ghost N: nat, ghost M: nat, root: Node, depth: nat, key: int) returns (node: Node)
    requires root.Valid(N, M, depth)
    ensures node == LeafNode(N, M, root, depth, key)
  {
    hide *;
    node := root;
    var d := depth;
    while d != 0
      invariant node.Valid(N, M, d)
      invariant LeafNode(N, M, node, d, key) == LeafNode(N, M, root, depth, key)
    {
      node := StepDown(N, M, node, d, key);
      d := d - 1;
    }
    LeafNodeHere(N, M, node, key);
  }

  lemma {:induction false} LeafNodeHere(N: nat, M: nat, node: Node, key: int)
    requires node.Valid(N, M, 0)
    ensures LeafNode(N, M, node, 0, key) == node
  {
  }

  method StepDown(ghost N: nat, ghost M: nat, node: Node, ghost d: nat, key: int) returns (child: Node)
    requires d > 0 && node.Valid(N, M, d)
    ensures child.Valid(N, M, d - 1)
    ensures LeafNode(N, M, node, d, key) == LeafNode(N, M, child, d - 1, key)
  {
    var index := InnerPositionFor(key, node.keys, node.numKeys);
    ghost var kids := node.children[..node.numKeys + 1];
    assert Node.Group(N, M, d - 1, kids, node.Repr - node.Own());
    assert Node.Member(N, M, d - 1, kids[index], node.Repr - node.Own());
    child := node.children[index];
  }

  /** One step of a cursor from an inner node to a child. */
  method Descend(ghost N: nat, ghost M: nat, node: Node, ghost d: nat, index: nat) returns (child: Node)
    requires d > 0 && node.Valid(N, M, d) && index <= node.numKeys
    ensures child == node.children[index] && child.Valid(N, M, d - 1) && child.Repr <= node.Repr
    ensures child.Model(N, M, d - 1) == node.Model(N, M, d).kids[index]
  {
    ghost var kids := node.children[..node.numKeys + 1];
    assert Node.Member(N, M, d - 1, kids[index], node.Repr - node.Own());
    child := node.children[index];
  }

  /** btree.h:82-107: the insertion below the root, and the new root if that was split. */
  method InsertAtRoot(N: nat, M: nat, root: Node, depth: nat, key: int, value: int)
    returns (newRoot: Node, newDepth: nat)
    requires N >= 3 && M >= 2 && root.Valid(N, M, depth)
    modifies root.Repr
    ensures newRoot.Valid(N, M, newDepth) && fresh(newRoot.Repr - old(root.Repr))
    ensures (newRoot.Model(N, M, newDepth), newDepth) ==
            Root(depth, BTreeInsert.Insert(N, M, old(root.Model(N, M, depth)), depth, key, value))
  {
    hide Node.Valid, Node.Model, Node.Group, BTreeInsert.Insert, Node.Own;
    var result := InsertBelow(N, M, root, depth, key, value);
    if result.WasSplit? {
      newDepth := depth + 1;
      newRoot := NewRoot(N, M, depth, result.key, result.left, result.right);
    } else {
      newRoot, newDepth := root, depth;
    }
  }

  method NewRoot(N: nat, ghost M: nat, ghost d: nat, key: int, left: Node, right: Node) returns (root: Node)
    requires N >= 3 && left.Valid(N, M, d) && right.Valid(N, M, d) && left.Repr !! right.Repr
    ensures fresh(root) && fresh(root.Own()) && root.Repr == root.Own() + (left.Repr + right.Repr)
    ensures root.Valid(N, M, d + 1)
    ensures root.Model(N, M, d + 1) == Tree.Inner([key], [left.Model(N, M, d), right.Model(N, M, d)])
  {
    hide Node.Valid, Node.Group, Node.Model;
    ghost var lm, rm := left.Model(N, M, d), right.Model(N, M, d);
    PartsGroup(N, M, d, left, WasSplit(key, left, right), Split(lm, key, rm));
    root := PairNode(N, key, left, right);
    AssignRepr(N, M, root, d + 1, left.Repr + right.Repr, Tree.Inner([key], [lm, rm]));
  }

  method PairNode(N: nat, key: int, left: Node, right: Node) returns (node: Node)
    requires N >= 3
    ensures fresh(node) && fresh(node.Own()) && !node.isLeaf && node.numKeys == 1 && node.keys != node.values
    ensures node.keys.Length == N && node.children.Length == N + 1
    ensures node.keys[..1] == [key] && node.children[..2] == [left, right]
  {
    node := new Node.NewInner(N);
    node.numKeys := 1;
    node.keys[0] := key;
    node.children[0] := left;
    node.children[1] := right;
  }
}
