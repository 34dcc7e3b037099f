/** The B+ tree of btree.h as a value.

    A leaf keeps every slot of its key array, also the slots past `num_keys`, because
    `leaf_insert_nonfull` reads one of them; its value sequence has the live values only, so
    `num_keys` is `|values|`. An inner node has its live separators and children. The heap nodes
    of module BPlusTree, whose arrays all have full capacity, denote these values. */
module BTreeModel {
  import opened OrderedEntries

  datatype Tree =
    | Leaf(keys: seq<int>, values: seq<int>)
    | Inner(seps: seq<int>, kids: seq<Tree>)

  /** What an insertion hands back: the node itself, or the two halves of a split node. */
  datatype Outcome = Fits(node: Tree) | Split(left: Tree, sep: int, right: Tree)

  /** The exclusive upper bound that the separators above a subtree put on its keys. */
  datatype Bound = Unbounded | Limit(limit: int)

  predicate Under(k: int, hi: Bound) {
    hi.Unbounded? || k < hi.limit
  }

  // ---------------------------------------------------------------- position searches

  /** First live slot whose key is not below `key`, or `n`. */
  function LeafPos(keys: seq<int>, n: nat, key: int, from: nat := 0): (p: nat)
    requires from <= n <= |keys|
    ensures from <= p <= n
    ensures forall i | from <= i < p :: keys[i] < key
    ensures p < n ==> key <= keys[p]
    decreases n - from
  {
    if from < n && keys[from] < key then LeafPos(keys, n, key, from + 1) else from
  }

  /** Number of leading separators at or below `key`: the child to descend into. */
  function InnerPos(seps: seq<int>, key: int, from: nat := 0): (p: nat)
    requires from <= |seps|
    ensures from <= p <= |seps|
    ensures forall i | from <= i < p :: seps[i] <= key
    ensures p < |seps| ==> key < seps[p]
    decreases |seps| - from
  {
    if from < |seps| && seps[from] <= key then InnerPos(seps, key, from + 1) else from
  }

  // ---------------------------------------------------------------- shape and invariant

  /** Array sizes and uniform depth: what the code needs to run at all. */
  ghost predicate Shape(N: nat, M: nat, t: Tree, d: nat)
    decreases d
  {
    match t
    case Leaf(keys, values) => d == 0 && |keys| == M && |values| <= M
    case Inner(seps, kids) =>
      && d > 0 && |seps| <= N && |kids| == |seps| + 1
      && forall i | 0 <= i < |kids| :: Shape(N, M, kids[i], d - 1)
  }

  predicate Bare(t: Tree) {
    t.Leaf? && |t.values| == 0
  }

  /** The smallest key physically stored below `t`. */
  function MinKey(t: Tree): int {
    match t
    case Leaf(keys, _) => if |keys| > 0 then keys[0] else 0
    case Inner(_, kids) => if |kids| > 0 then MinKey(kids[0]) else 0
  }

  function KidBound(seps: seq<int>, i: nat, hi: Bound): Bound {
    if i < |seps| then Limit(seps[i]) else hi
  }

  ghost predicate Ascending(s: seq<int>, n: nat)
    requires n <= |s|
  {
    forall i, j | 0 <= i < j < n :: s[i] < s[j]
  }

  /** The full tree invariant below the exclusive bound `hi`. A slot past the live keys of a leaf
      holds 0 or a key that belongs to the right of the leaf. */
  ghost predicate Inv(N: nat, M: nat, t: Tree, d: nat, hi: Bound)
    decreases d, 0
  {
    match t
    case Leaf(keys, values) =>
      && d == 0 && |keys| == M && |values| <= M
      && Ascending(keys, |values|)
      && (forall i | 0 <= i < |values| :: Under(keys[i], hi))
      && (forall i | |values| <= i < M :: keys[i] == 0 || !Under(keys[i], hi))
    case Inner(seps, kids) =>
      && d > 0 && 1 <= |seps| <= N && |kids| == |seps| + 1
      && Ascending(seps, |seps|)
      && (forall i | 0 <= i < |seps| :: Under(seps[i], hi))
      && (forall i | 0 <= i < |kids| :: KidOk(N, M, seps, kids[i], i, d - 1, hi))
  }

  ghost predicate KidOk(N: nat, M: nat, seps: seq<int>, kid: Tree, i: nat, d: nat, hi: Bound)
    decreases d, 1
  {
    && !Bare(kid)
    && (0 < i <= |seps| ==> MinKey(kid) == seps[i - 1])
    && Inv(N, M, kid, d, KidBound(seps, i, hi))
  }

  lemma {:induction false} InvShape(N: nat, M: nat, t: Tree, d: nat, hi: Bound)
    requires Inv(N, M, t, d, hi)
    ensures Shape(N, M, t, d)
    decreases d
  {
    if t.Inner? {
      forall i | 0 <= i < |t.kids| ensures Shape(N, M, t.kids[i], d - 1) {
        assert KidOk(N, M, t.seps, t.kids[i], i, d - 1, hi);
        InvShape(N, M, t.kids[i], d - 1, KidBound(t.seps, i, hi));
      }
    }
  }

  // ---------------------------------------------------------------- stored entries

  function LeafEntries(keys: seq<int>, values: seq<int>): (es: seq<Entry>)
    requires |values| <= |keys|
    ensures |es| == |values|
  {
    seq(|values|, i requires 0 <= i < |values| => Entry(keys[i], values[i]))
  }

  /** Everything physically stored below `t`, tombstones included, from left to right. */
  function Entries(t: Tree): seq<Entry>
    decreases t, 0
  {
    match t
    case Leaf(keys, values) => if |values| <= |keys| then LeafEntries(keys, values) else []
    case Inner(_, kids) => Flat(kids)
  }

  function Flat(kids: seq<Tree>): seq<Entry>
    decreases kids, 1
  {
    if kids == [] then [] else Entries(kids[0]) + Flat(kids[1..])
  }

  lemma {:induction false} FlatConcat(a: seq<Tree>, b: seq<Tree>)
    ensures Flat(a + b) == Flat(a) + Flat(b)
  {
    if a == [] {
      assert a + b == b;
    } else {
      assert (a + b)[0] == a[0] && (a + b)[1..] == a[1..] + b;
      FlatConcat(a[1..], b);
    }
  }

  lemma {:induction false} FlatAround(kids: seq<Tree>, i: nat)
    requires i < |kids|
    ensures Flat(kids) == Flat(kids[..i]) + Entries(kids[i]) + Flat(kids[i + 1..])
  {
    var rest := kids[i..];
    assert kids == kids[..i] + rest;
    FlatConcat(kids[..i], rest);
    assert rest[0] == kids[i] && rest[1..] == kids[i + 1..];
    assert Flat(rest) == Entries(kids[i]) + Flat(kids[i + 1..]);
  }

  lemma {:induction false} FlatMember(kids: seq<Tree>, e: Entry) returns (i: nat)
    requires e in Flat(kids)
    ensures i < |kids| && e in Entries(kids[i])
  {
    if e in Entries(kids[0]) {
      i := 0;
    } else {
      i := FlatMember(kids[1..], e);
      i := i + 1;
    }
  }

  /** Keys below a subtree lie in its separator interval: from its minimum up to its bound. */
  lemma {:induction false} EntriesWithin(N: nat, M: nat, t: Tree, d: nat, hi: Bound, e: Entry)
    requires Inv(N, M, t, d, hi)
    requires e in Entries(t)
    ensures MinKey(t) <= e.key && Under(e.key, hi)
    decreases d
  {
    if t.Inner? {
      var i := FlatMember(t.kids, e);
      assert KidOk(N, M, t.seps, t.kids[i], i, d - 1, hi);
      EntriesWithin(N, M, t.kids[i], d - 1, KidBound(t.seps, i, hi), e);
      if i > 0 {
        MinUnder(N, M, t, d, hi);
        assert t.seps[0] <= t.seps[i - 1];
      }
    }
  }

  lemma {:induction false} MinUnder(N: nat, M: nat, t: Tree, d: nat, hi: Bound)
    requires Inv(N, M, t, d, hi) && !Bare(t)
    ensures Entries(t) != [] && Entries(t)[0].key == MinKey(t) && Under(MinKey(t), hi)
    ensures t.Inner? ==> MinKey(t) < t.seps[0]
    decreases d
  {
    if t.Inner? {
      assert KidOk(N, M, t.seps, t.kids[0], 0, d - 1, hi);
      MinUnder(N, M, t.kids[0], d - 1, Limit(t.seps[0]));
    }
  }

  /** Around the child that a key is routed to, everything on the left is below the key and
      everything on the right is above it. */
  lemma {:induction false} RouteSeparates(N: nat, M: nat, t: Tree, d: nat, hi: Bound, key: int)
    requires Inv(N, M, t, d, hi) && t.Inner?
    ensures var i := InnerPos(t.seps, key);
            && (forall e | e in Flat(t.kids[..i]) :: e.key < key)
            && (forall e | e in Flat(t.kids[i + 1..]) :: key < e.key)
  {
    var i := InnerPos(t.seps, key);
    forall e | e in Flat(t.kids[..i]) ensures e.key < key {
      var j := FlatMember(t.kids[..i], e);
      assert KidOk(N, M, t.seps, t.kids[j], j, d - 1, hi);
      EntriesWithin(N, M, t.kids[j], d - 1, Limit(t.seps[j]), e);
    }
    forall e | e in Flat(t.kids[i + 1..]) ensures key < e.key {
      var j := FlatMember(t.kids[i + 1..], e);
      var k := i + 1 + j;
      assert t.kids[i + 1..][j] == t.kids[k];
      assert KidOk(N, M, t.seps, t.kids[k], k, d - 1, hi);
      EntriesWithin(N, M, t.kids[k], d - 1, KidBound(t.seps, k, hi), e);
      assert t.seps[i] <= t.seps[k - 1];
    }
  }

  lemma {:induction false} EntriesSorted(N: nat, M: nat, t: Tree, d: nat, hi: Bound)
    requires Inv(N, M, t, d, hi)
    ensures Sorted(Entries(t))
    decreases d
  {
    if t.Inner? {
      KidsSorted(N, M, t, d, hi, 0);
      assert t.kids[0..] == t.kids;
    }
  }

  lemma {:induction false} KidsSorted(N: nat, M: nat, t: Tree, d: nat, hi: Bound, i: nat)
    requires Inv(N, M, t, d, hi) && t.Inner? && i <= |t.kids|
    ensures Sorted(Flat(t.kids[i..]))
    decreases d, |t.kids| - i
  {
    if i < |t.kids| {
      assert KidOk(N, M, t.seps, t.kids[i], i, d - 1, hi);
      EntriesSorted(N, M, t.kids[i], d - 1, KidBound(t.seps, i, hi));
      KidsSorted(N, M, t, d, hi, i + 1);
      var a, b := Entries(t.kids[i]), Flat(t.kids[i + 1..]);
      assert t.kids[i..][1..] == t.kids[i + 1..];
      if i < |t.seps| {
        RouteSeparates(N, M, t, d, hi, t.seps[i]);
        forall x, y | x in a && y in b ensures x.key < y.key {
          EntriesWithin(N, M, t.kids[i], d - 1, Limit(t.seps[i]), x);
          var j := FlatMember(t.kids[i + 1..], y);
          var k := i + 1 + j;
          assert t.kids[i + 1..][j] == t.kids[k];
          assert KidOk(N, M, t.seps, t.kids[k], k, d - 1, hi);
          EntriesWithin(N, M, t.kids[k], d - 1, KidBound(t.seps, k, hi), y);
          assert t.seps[i] <= t.seps[k - 1];
        }
      }
      SortedConcat(a, b);
    }
  }
}
