/** Insertion into the tree value of module BTreeModel: the same splits, in the same order, as
    btree.h:335-486, and the proof that they keep the invariant and store the pair. */
module BTreeInsert {
  import opened Sequences
  import opened OrderedEntries
  import opened BTreeModel

  // ---------------------------------------------------------------- the code on values

  /** leaf_insert_nonfull: the equality test looks at slot `index` even when it is past the live
      keys. */
  function LeafPut(keys: seq<int>, values: seq<int>, key: int, value: int, index: nat): Tree
    requires index <= |values| < |keys|
  {
    if keys[index] == key then
      Leaf(keys, if index < |values| then values[index := value] else values)
    else
      Leaf(Shifted(keys, |values|, index, key), values[..index] + [value] + values[index..])
  }

  /** The first `n` slots from `index` on move one slot to the right to make room for `x`. */
  function Shifted(s: seq<int>, n: nat, index: nat, x: int): (r: seq<int>)
    requires index <= n < |s|
    ensures |r| == |s| && r[index] == x
    ensures forall j | 0 <= j < index :: r[j] == s[j]
    ensures forall j | index < j <= n :: r[j] == s[j - 1]
    ensures forall j | n < j < |s| :: r[j] == s[j]
  {
    s[..index] + [x] + s[index..n] + s[n + 1..]
  }

  /** leaf_insert: a full leaf gives its upper half to a zero-filled sibling first. */
  function LeafInsert(M: nat, t: Tree, key: int, value: int): Outcome
    requires M >= 2 && t.Leaf? && |t.keys| == M && |t.values| <= M
  {
    var i := LeafPos(t.keys, |t.values|, key);
    if |t.values| == M then
      var th := (M + 1) / 2;
      var lv, rk, rv := t.values[..th], t.keys[th..] + Zeros(th), t.values[th..];
      if i < th then Split(LeafPut(t.keys, lv, key, value, i), rk[0], Leaf(rk, rv))
      else var r := LeafPut(rk, rv, key, value, i - th); Split(Leaf(t.keys, lv), r.keys[0], r)
    else
      Fits(LeafPut(t.keys, t.values, key, value, i))
  }

  /** leaf_insert or inner_insert, by depth: a full inner node is split on the way down. */
  function Insert(N: nat, M: nat, t: Tree, d: nat, key: int, value: int): Outcome
    requires N >= 3 && M >= 2 && Shape(N, M, t, d)
    decreases d, 1
  {
    if d == 0 then LeafInsert(M, t, key, value)
    else if |t.seps| == N then
      var th := (N + 1) / 2;
      var sep, l, r := t.seps[th - 1], LeftHalf(N, t), RightHalf(N, t);
      if key < sep then Split(InnerPut(N, M, l, d, key, value), sep, r)
      else Split(l, sep, InnerPut(N, M, r, d, key, value))
    else Fits(InnerPut(N, M, t, d, key, value))
  }

  function LeftHalf(N: nat, t: Tree): Tree
    requires t.Inner? && N >= 3 && |t.seps| == N && |t.kids| == N + 1
  {
    var th := (N + 1) / 2;
    Inner(t.seps[..th - 1], t.kids[..th])
  }

  function RightHalf(N: nat, t: Tree): Tree
    requires t.Inner? && N >= 3 && |t.seps| == N && |t.kids| == N + 1
  {
    var th := (N + 1) / 2;
    Inner(t.seps[th..], t.kids[th..])
  }

  /** inner_insert_nonfull. */
  function InnerPut(N: nat, M: nat, t: Tree, d: nat, key: int, value: int): Tree
    requires N >= 3 && M >= 2 && Shape(N, M, t, d) && t.Inner? && |t.seps| < N
    decreases d, 0
  {
    var i := InnerPos(t.seps, key);
    Adopt(t, i, Insert(N, M, t.kids[i], d - 1, key, value))
  }

  /** Puts the outcome for child `i` in its place. */
  function Adopt(t: Tree, i: nat, o: Outcome): Tree
    requires t.Inner? && i <= |t.seps| && |t.kids| == |t.seps| + 1
  {
    match o
    case Fits(c) => Inner(t.seps, t.kids[i := c])
    case Split(l, s, r) =>
      Inner(t.seps[..i] + [s] + t.seps[i..], t.kids[..i] + [l, r] + t.kids[i + 1..])
  }

  // ---------------------------------------------------------------- the key that is lost

  /** The leaf that `key` is routed to. */
  function LeafFor(t: Tree, d: nat, key: int): Tree
    decreases d
  {
    if d == 0 || t.Leaf? then t
    else
      var i := InnerPos(t.seps, key);
      if i < |t.kids| then LeafFor(t.kids[i], d - 1, key) else t
  }

  /** The equality test of leaf_insert_nonfull meets `key` in a slot that holds no live key. */
  predicate HitsEmptySlot(M: nat, keys: seq<int>, n: nat, key: int)
    requires n <= |keys| == M
  {
    LeafPos(keys, n, key) == n && key == 0 && (n == M || keys[n] == 0)
  }

  ghost predicate Loses(N: nat, M: nat, t: Tree, d: nat, key: int) {
    var leaf := LeafFor(t, d, key);
    leaf.Leaf? && |leaf.values| <= |leaf.keys| == M && HitsEmptySlot(M, leaf.keys, |leaf.values|, key)
  }

  /** The entries after inserting: nothing new when the key is lost. */
  ghost function Stored(N: nat, M: nat, t: Tree, d: nat, key: int, value: int): seq<Entry> {
    if Loses(N, M, t, d, key) then Entries(t) else Upsert(Entries(t), key, value)
  }

  function Min(a: int, b: int): int {
    if a < b then a else b
  }

  /** What every insertion step guarantees about its outcome. */
  ghost predicate Good(N: nat, M: nat, t: Tree, d: nat, hi: Bound, key: int, value: int, o: Outcome) {
    match o
    case Fits(c) =>
      && Inv(N, M, c, d, hi) && Entries(c) == Stored(N, M, t, d, key, value)
      && (!Bare(t) ==> !Bare(c) && MinKey(c) == Min(key, MinKey(t)))
    case Split(l, s, r) =>
      && Inv(N, M, l, d, Limit(s)) && Inv(N, M, r, d, hi) && Under(s, hi)
      && !Bare(l) && !Bare(r)
      && Entries(l) + Entries(r) == Stored(N, M, t, d, key, value)
      && MinKey(l) == Min(key, MinKey(t)) && MinKey(r) == s
  }

  // ---------------------------------------------------------------- leaves

  lemma ShiftedAscending(s: seq<int>, n: nat, index: nat, x: int)
    requires index <= n < |s| && Ascending(s, n)
    requires (forall i | 0 <= i < index :: s[i] < x) && (index < n ==> x < s[index])
    ensures Ascending(Shifted(s, n, index, x), n + 1)
  {
    var r := Shifted(s, n, index, x);
    forall i, j | 0 <= i < j < n + 1 ensures r[i] < r[j] {
      if index < j {
        assert r[j] == s[j - 1];
        if index < i { assert r[i] == s[i - 1]; }
      }
    }
  }

  lemma ShiftedEntries(keys: seq<int>, values: seq<int>, key: int, value: int, i: nat)
    requires i <= |values| < |keys|
    ensures LeafEntries(Shifted(keys, |values|, i, key), values[..i] + [value] + values[i..]) ==
            LeafEntries(keys, values)[..i] + [Entry(key, value)] + LeafEntries(keys, values)[i..]
  {
    var vs := values[..i] + [value] + values[i..];
    assert forall j | i < j < |vs| :: vs[j] == values[j - 1];
  }

  lemma {:induction false} ShiftedLeaf(N: nat, M: nat, t: Tree, key: int, hi: Bound, i: nat, c: Tree)
    requires Inv(N, M, t, 0, hi) && |t.values| < M && Under(key, hi)
    requires i == LeafPos(t.keys, |t.values|, key) && t.keys[i] != key
    requires c.Leaf? && c.keys == Shifted(t.keys, |t.values|, i, key) && |c.values| == |t.values| + 1
    ensures Inv(N, M, c, 0, hi)
  {
    ShiftedAscending(t.keys, |t.values|, i, key);
  }

  lemma {:induction false} LeafPutGood(N: nat, M: nat, t: Tree, key: int, value: int, hi: Bound)
    requires Inv(N, M, t, 0, hi) && |t.values| < M && Under(key, hi)
    ensures var i := LeafPos(t.keys, |t.values|, key);
            var c := LeafPut(t.keys, t.values, key, value, i);
            Good(N, M, t, 0, hi, key, value, Fits(c))
  {
    var i := LeafPos(t.keys, |t.values|, key);
    if t.keys[i] == key { PutOver(N, M, t, key, value, hi, i); } else { PutBetween(N, M, t, key, value, hi, i); }
  }

  lemma PutOver(N: nat, M: nat, t: Tree, key: int, value: int, hi: Bound, i: nat)
    requires Inv(N, M, t, 0, hi) && |t.values| < M && Under(key, hi) && i == LeafPos(t.keys, |t.values|, key) && t.keys[i] == key
    ensures Good(N, M, t, 0, hi, key, value, Fits(LeafPut(t.keys, t.values, key, value, i)))
  {
    if i < |t.values| {
      UpsertAt(Entries(t), key, value, i);
      assert Entries(LeafPut(t.keys, t.values, key, value, i)) == Entries(t)[i := Entry(key, value)];
    }
  }

  lemma PutBetween(N: nat, M: nat, t: Tree, key: int, value: int, hi: Bound, i: nat)
    requires Inv(N, M, t, 0, hi) && |t.values| < M && Under(key, hi) && i == LeafPos(t.keys, |t.values|, key) && t.keys[i] != key
    ensures Good(N, M, t, 0, hi, key, value, Fits(LeafPut(t.keys, t.values, key, value, i)))
  {
    ShiftedLeaf(N, M, t, key, hi, i, LeafPut(t.keys, t.values, key, value, i));
    ShiftedEntries(t.keys, t.values, key, value, i);
    UpsertAt(Entries(t), key, value, i);
  }

  lemma {:induction false} LeafInsertGood(N: nat, M: nat, t: Tree, key: int, value: int, hi: Bound)
    requires M >= 2 && Inv(N, M, t, 0, hi) && Under(key, hi)
    ensures Good(N, M, t, 0, hi, key, value, LeafInsert(M, t, key, value))
  {
    if |t.values| < M {
      LeafPutGood(N, M, t, key, value, hi);
    } else {
      LeafSplitGood(N, M, t, key, value, hi);
    }
  }

  /** The two halves of a full leaf, before the pair is put into one of them. */
  lemma LeafHalves(N: nat, M: nat, t: Tree, hi: Bound, th: nat) returns (l: Tree, r: Tree)
    requires Inv(N, M, t, 0, hi) && |t.values| == M && 0 < th < M
    ensures l == Leaf(t.keys, t.values[..th])
    ensures r == Leaf(t.keys[th..] + Zeros(th), t.values[th..]) && r.keys[0] == t.keys[th]
    ensures Inv(N, M, l, 0, Limit(t.keys[th])) && Inv(N, M, r, 0, hi)
    ensures Entries(t) == Entries(l) + Entries(r)
  {
    l, r := Leaf(t.keys, t.values[..th]), Leaf(t.keys[th..] + Zeros(th), t.values[th..]);
    assert Entries(t) == Entries(l) + Entries(r);
  }

  lemma {:induction false} LeafSplitGood(N: nat, M: nat, t: Tree, key: int, value: int, hi: Bound)
    requires M >= 2 && Inv(N, M, t, 0, hi) && Under(key, hi) && |t.values| == M
    ensures Good(N, M, t, 0, hi, key, value, LeafInsert(M, t, key, value))
  {
    hide *;
    InvLeaf(N, M, t, hi);
    var th := (M + 1) / 2;
    var l, r := LeafHalves(N, M, t, hi, th);
    FullLeafInsert(M, t, key, value, th, LeafPos(t.keys, M, key), l, r);
    if LeafPos(t.keys, M, key) < th {
      LeftLeafSplit(N, M, t, key, value, hi, l, r, th);
    } else {
      RightLeafCase(N, M, t, key, value, hi, l, r, th);
    }
  }

  lemma {:induction false} InvLeaf(N: nat, M: nat, t: Tree, hi: Bound)
    requires Inv(N, M, t, 0, hi)
    ensures t.Leaf? && |t.keys| == M && |t.values| <= M
  {
  }

  lemma RightLeafCase(N: nat, M: nat, t: Tree, key: int, value: int, hi: Bound, l: Tree, r: Tree, th: nat)
    requires M >= 2 && Inv(N, M, t, 0, hi) && Under(key, hi) && |t.values| == M && 0 < th < M
    requires th <= LeafPos(t.keys, M, key) && l == Leaf(t.keys, t.values[..th])
    requires r == Leaf(t.keys[th..] + Zeros(th), t.values[th..]) && Inv(N, M, r, 0, hi)
    requires Entries(t) == Entries(l) + Entries(r)
    ensures var c := LeafPut(r.keys, r.values, key, value, LeafPos(t.keys, M, key) - th);
            Good(N, M, t, 0, hi, key, value, Split(l, c.keys[0], c))
  {
    hide Inv, Good, Entries, Loses, Zeros;
    InvLeaf(N, M, t, hi);
    RightLoses(N, M, t, r, key, th);
    LeafPutGood(N, M, r, key, value, hi);
    assert r.keys[0] == t.keys[th];
    var c := LeafPut(r.keys, r.values, key, value, LeafPos(t.keys, M, key) - th);
    RightLeafSplit(N, M, t, key, value, hi, l, r, th, c);
  }

  /** LeafInsert on a full leaf, in terms of its two halves. */
  lemma {:induction false} FullLeafInsert(M: nat, t: Tree, key: int, value: int, th: nat, i: nat, l: Tree, r: Tree)
    requires M >= 2 && t.Leaf? && |t.keys| == |t.values| == M
    requires th == (M + 1) / 2 && i == LeafPos(t.keys, M, key)
    requires l == Leaf(t.keys, t.values[..th]) && r == Leaf(t.keys[th..] + Zeros(th), t.values[th..])
    ensures i < th ==>
            LeafInsert(M, t, key, value) == Split(LeafPut(l.keys, l.values, key, value, i), r.keys[0], r)
    ensures i >= th ==>
            var c := LeafPut(r.keys, r.values, key, value, i - th);
            LeafInsert(M, t, key, value) == Split(l, c.keys[0], c)
  {
  }

  lemma {:induction false} LeftLeafSplit(N: nat, M: nat, t: Tree, key: int, value: int, hi: Bound, l: Tree, r: Tree, th: nat)
    requires M >= 2 && Inv(N, M, t, 0, hi) && Under(key, hi) && |t.values| == M && 0 < th < M
    requires LeafPos(t.keys, M, key) < th && l == Leaf(t.keys, t.values[..th])
    requires r.Leaf? && |r.values| > 0 && |r.keys| == M && r.keys[0] == t.keys[th]
    requires Inv(N, M, l, 0, Limit(t.keys[th])) && Inv(N, M, r, 0, hi)
    requires Entries(t) == Entries(l) + Entries(r)
    ensures LeafPos(l.keys, th, key) == LeafPos(t.keys, M, key)
    ensures Good(N, M, t, 0, hi, key, value,
                 Split(LeafPut(l.keys, l.values, key, value, LeafPos(t.keys, M, key)), t.keys[th], r))
  {
    LeafPosIs(l.keys, th, key, LeafPos(t.keys, M, key));
    LeafPutGood(N, M, l, key, value, Limit(t.keys[th]));
    forall e | e in Entries(r) ensures key < e.key {
      EntriesWithin(N, M, r, 0, hi, e);
    }
    UpsertLeft(Entries(l), Entries(r), key, value);
  }

  lemma {:induction false} LeafPosIs(keys: seq<int>, n: nat, key: int, p: nat)
    requires p <= n <= |keys| && (forall i | 0 <= i < p :: keys[i] < key)
    requires p < n ==> key <= keys[p]
    ensures LeafPos(keys, n, key) == p
  {
  }

  lemma {:induction false} RightLoses(N: nat, M: nat, t: Tree, r: Tree, key: int, th: nat)
    requires t.Leaf? && |t.keys| == |t.values| == M && 0 < th < M && th <= LeafPos(t.keys, M, key)
    requires r == Leaf(t.keys[th..] + Zeros(th), t.values[th..])
    ensures LeafPos(r.keys, M - th, key) == LeafPos(t.keys, M, key) - th
    ensures Loses(N, M, r, 0, key) == Loses(N, M, t, 0, key)
  {
    LeafPosIs(r.keys, M - th, key, LeafPos(t.keys, M, key) - th);
    assert r.keys[M - th] == 0;
  }

  lemma {:induction false} RightLeafSplit(N: nat, M: nat, t: Tree, key: int, value: int, hi: Bound, l: Tree, r: Tree, th: nat,
                       c: Tree)
    requires M >= 2 && Inv(N, M, t, 0, hi) && Under(key, hi) && |t.values| == M && 0 < th < M
    requires th <= LeafPos(t.keys, M, key) && r.Leaf? && |r.keys| == M && r.keys[0] == t.keys[th]
    requires l == Leaf(t.keys, t.values[..th]) && |r.values| > 0
    requires Entries(t) == Entries(l) + Entries(r)
    requires Good(N, M, r, 0, hi, key, value, Fits(c))
    requires Loses(N, M, r, 0, key) == Loses(N, M, t, 0, key)
    ensures Good(N, M, t, 0, hi, key, value, Split(l, MinKey(c), c))
  {
    RightSplitBounds(N, M, t, hi, key, th, MinKey(c));
    UpsertRight(Entries(l), Entries(r), key, value);
  }

  /** The left half stays valid below the new separator, its stale slots included. */
  lemma {:induction false} RightSplitBounds(N: nat, M: nat, t: Tree, hi: Bound, key: int, th: nat, s: int)
    requires Inv(N, M, t, 0, hi)
    requires |t.values| == M && 0 < th < M && th <= LeafPos(t.keys, M, key) && s == Min(key, t.keys[th])
    ensures Inv(N, M, Leaf(t.keys, t.values[..th]), 0, Limit(s))
    ensures forall e | e in Entries(Leaf(t.keys, t.values[..th])) :: e.key < key
  {
  }

  // ---------------------------------------------------------------- inner nodes

  /** One slot of the separators and children after the split of child `i` is adopted. */
  lemma AdoptSplitKid(N: nat, M: nat, t: Tree, d: nat, hi: Bound, i: nat, o: Outcome, j: nat)
    requires Inv(N, M, t, d, hi) && t.Inner? && |t.seps| < N && i < |t.kids| && o.Split?
    requires Inv(N, M, o.left, d - 1, Limit(o.sep)) && !Bare(o.left) && (i > 0 ==> MinKey(o.left) == t.seps[i - 1])
    requires Inv(N, M, o.right, d - 1, KidBound(t.seps, i, hi)) && !Bare(o.right) && MinKey(o.right) == o.sep
    requires j <= |t.kids|
    ensures var c := Adopt(t, i, o); KidOk(N, M, c.seps, c.kids[j], j, d - 1, hi)
  {
    assert |t.kids| == |t.seps| + 1;
    assert j < i ==> KidOk(N, M, t.seps, t.kids[j], j, d - 1, hi);
    assert i + 1 < j ==> KidOk(N, M, t.seps, t.kids[j - 1], j - 1, d - 1, hi);
    AdoptSlots(t, i, o, j);
    hide Inv, MinKey, Adopt;
  }

  /** Where the separators and children go when a split is adopted. */
  lemma AdoptSlots(t: Tree, i: nat, o: Outcome, j: nat)
    requires t.Inner? && i <= |t.seps| && |t.kids| == |t.seps| + 1 && o.Split? && j <= |t.kids|
    ensures var c := Adopt(t, i, o);
            && |c.seps| == |t.seps| + 1 && |c.kids| == |t.kids| + 1
            && c.kids[j] == (if j < i then t.kids[j] else if j == i then o.left
                             else if j == i + 1 then o.right else t.kids[j - 1])
            && (j < |c.seps| ==> c.seps[j] == (if j < i then t.seps[j] else if j == i then o.sep else t.seps[j - 1]))
            && (j > 0 ==> c.seps[j - 1] == (if j - 1 < i then t.seps[j - 1] else if j - 1 == i then o.sep
                                            else t.seps[j - 2]))
  {
  }

  lemma {:induction false} AdoptInv(N: nat, M: nat, t: Tree, d: nat, hi: Bound, i: nat, key: int, value: int, o: Outcome)
    requires Inv(N, M, t, d, hi) && t.Inner? && |t.seps| < N && i == InnerPos(t.seps, key) && Under(key, hi)
    requires Good(N, M, t.kids[i], d - 1, KidBound(t.seps, i, hi), key, value, o)
    ensures Inv(N, M, Adopt(t, i, o), d, hi)
    ensures MinKey(Adopt(t, i, o)) == Min(key, MinKey(t))
  {
    var c := Adopt(t, i, o);
    assert KidOk(N, M, t.seps, t.kids[i], i, d - 1, hi);
    assert KidOk(N, M, t.seps, t.kids[0], 0, d - 1, hi);
    MinUnder(N, M, t, d, hi);
    if o.Fits? {
      forall j | 0 <= j < |c.kids| ensures KidOk(N, M, c.seps, c.kids[j], j, d - 1, hi) {
        assert KidOk(N, M, t.seps, t.kids[j], j, d - 1, hi);
      }
    } else {
      forall j | 0 <= j < |c.kids| ensures KidOk(N, M, c.seps, c.kids[j], j, d - 1, hi) {
        AdoptSplitKid(N, M, t, d, hi, i, o, j);
      }
      AdoptSeps(N, M, t, d, hi, i, o);
    }
  }

  lemma AdoptSeps(N: nat, M: nat, t: Tree, d: nat, hi: Bound, i: nat, o: Outcome)
    requires Inv(N, M, t, d, hi) && t.Inner? && i < |t.kids| && o.Split?
    requires Inv(N, M, o.left, d - 1, Limit(o.sep)) && !Bare(o.left) && (i > 0 ==> MinKey(o.left) == t.seps[i - 1])
    requires Under(o.sep, KidBound(t.seps, i, hi))
    ensures var s := Adopt(t, i, o).seps; Ascending(s, |s|) && forall j | 0 <= j < |s| :: Under(s[j], hi)
  {
    MinUnder(N, M, o.left, d - 1, Limit(o.sep));
    InsertedAscending(t.seps, i, o.sep);
  }

  lemma InsertedAscending(s: seq<int>, i: nat, x: int)
    requires i <= |s| && Ascending(s, |s|)
    requires (i > 0 ==> s[i - 1] < x) && (i < |s| ==> x < s[i])
    ensures var r := s[..i] + [x] + s[i..]; Ascending(r, |r|)
  {
    var r := s[..i] + [x] + s[i..];
    assert forall j | 0 <= j < i :: r[j] == s[j];
    assert forall j | i < j < |r| :: r[j] == s[j - 1];
    assert i > 0 ==> forall j | 0 <= j < i :: s[j] <= s[i - 1];
    assert i < |s| ==> forall j | i <= j < |s| :: s[i] <= s[j];
  }

  lemma {:induction false} AdoptEntries(N: nat, M: nat, t: Tree, d: nat, hi: Bound, i: nat, key: int, value: int, o: Outcome)
    requires Inv(N, M, t, d, hi) && t.Inner? && i == InnerPos(t.seps, key)
    requires Good(N, M, t.kids[i], d - 1, KidBound(t.seps, i, hi), key, value, o)
    ensures Entries(Adopt(t, i, o)) == Stored(N, M, t, d, key, value)
  {
    var a, m, b := Flat(t.kids[..i]), Entries(t.kids[i]), Flat(t.kids[i + 1..]);
    AdoptFlat(t, i, o);
    FlatAround(t.kids, i);
    assert LeafFor(t, d, key) == LeafFor(t.kids[i], d - 1, key);
    assert Entries(t) == a + m + b;
    RouteSeparates(N, M, t, d, hi, key);
    UpsertMiddle(a, m, b, key, value);
  }

  lemma {:induction false} UpsertMiddle(a: seq<Entry>, m: seq<Entry>, b: seq<Entry>, key: int, value: int)
    requires (forall e | e in a :: e.key < key) && (forall e | e in b :: key < e.key)
    ensures Upsert(a + m + b, key, value) == a + Upsert(m, key, value) + b
  {
    UpsertLeft(a + m, b, key, value);
    UpsertRight(a, m, key, value);
  }

  /** The entries of an outcome, from left to right. */
  function Yield(o: Outcome): seq<Entry> {
    match o
    case Fits(c) => Entries(c)
    case Split(l, _, r) => Entries(l) + Entries(r)
  }

  lemma AdoptFlat(t: Tree, i: nat, o: Outcome)
    requires t.Inner? && i <= |t.seps| && |t.kids| == |t.seps| + 1
    ensures Entries(Adopt(t, i, o)) == Flat(t.kids[..i]) + Yield(o) + Flat(t.kids[i + 1..])
  {
    var c := Adopt(t, i, o);
    if o.Fits? {
      FlatAround(c.kids, i);
      assert c.kids[..i] == t.kids[..i] && c.kids[i + 1..] == t.kids[i + 1..];
    } else {
      FlatTwo(t.kids[..i], o.left, o.right, t.kids[i + 1..]);
    }
  }

  lemma {:induction false} FlatTwo(a: seq<Tree>, l: Tree, r: Tree, b: seq<Tree>)
    ensures Flat(a + [l, r] + b) == Flat(a) + (Entries(l) + Entries(r)) + Flat(b)
  {
    var rest := [l, r] + b;
    assert a + [l, r] + b == a + rest;
    FlatConcat(a, rest);
    assert rest[1..] == [r] + b && rest[1..][1..] == b;
    assert Flat(rest) == Entries(l) + (Entries(r) + Flat(b));
  }

  lemma LeftHalfGood(N: nat, M: nat, t: Tree, d: nat, hi: Bound)
    requires N >= 3 && Inv(N, M, t, d, hi) && t.Inner? && |t.seps| == N
    ensures Inv(N, M, LeftHalf(N, t), d, Limit(t.seps[(N + 1) / 2 - 1]))
    ensures MinKey(LeftHalf(N, t)) == MinKey(t)
  {
    var th := (N + 1) / 2;
    var l, s := LeftHalf(N, t), t.seps[th - 1];
    assert forall j | 0 <= j < th - 1 :: l.seps[j] == t.seps[j];
    forall j | 0 <= j < |l.kids| ensures KidOk(N, M, l.seps, l.kids[j], j, d - 1, Limit(s)) {
      assert KidOk(N, M, t.seps, t.kids[j], j, d - 1, hi);
    }
  }

  lemma {:induction false} RightHalfGood(N: nat, M: nat, t: Tree, d: nat, hi: Bound)
    requires N >= 3 && Inv(N, M, t, d, hi) && t.Inner? && |t.seps| == N
    ensures Inv(N, M, RightHalf(N, t), d, hi)
    ensures MinKey(RightHalf(N, t)) == t.seps[(N + 1) / 2 - 1]
  {
    var th := (N + 1) / 2;
    var r := RightHalf(N, t);
    assert forall j | 0 <= j < N - th :: r.seps[j] == t.seps[th + j];
    assert KidOk(N, M, t.seps, t.kids[th], th, d - 1, hi);
    forall j | 0 <= j < |r.kids| ensures KidOk(N, M, r.seps, r.kids[j], j, d - 1, hi) {
      assert KidOk(N, M, t.seps, t.kids[th + j], th + j, d - 1, hi);
    }
  }

  /** The two halves of a full inner node. */
  lemma HalvesGood(N: nat, M: nat, t: Tree, d: nat, hi: Bound)
    requires N >= 3 && Inv(N, M, t, d, hi) && t.Inner? && |t.seps| == N
    ensures var s := t.seps[(N + 1) / 2 - 1];
            && Inv(N, M, LeftHalf(N, t), d, Limit(s)) && Inv(N, M, RightHalf(N, t), d, hi)
            && MinKey(RightHalf(N, t)) == s && MinKey(LeftHalf(N, t)) == MinKey(t)
    ensures Entries(t) == Entries(LeftHalf(N, t)) + Entries(RightHalf(N, t))
  {
    hide Inv;
    LeftHalfGood(N, M, t, d, hi);
    RightHalfGood(N, M, t, d, hi);
    assert |t.kids| == N + 1 by { InvShape(N, M, t, d, hi); }
    assert t.kids == LeftHalf(N, t).kids + RightHalf(N, t).kids;
    FlatConcat(LeftHalf(N, t).kids, RightHalf(N, t).kids);
  }

  lemma {:induction false} InnerPosIs(seps: seq<int>, key: int, p: nat)
    requires p <= |seps| && (forall i | 0 <= i < p :: seps[i] <= key) && (p < |seps| ==> key < seps[p])
    ensures InnerPos(seps, key) == p
  {
  }

  /** A key is routed to the same child by the half that is chosen for it. */
  lemma HalvesRoute(N: nat, t: Tree, d: nat, key: int)
    requires N >= 3 && t.Inner? && |t.seps| == N && |t.kids| == N + 1 && Ascending(t.seps, N) && d > 0
    ensures var s := t.seps[(N + 1) / 2 - 1];
            LeafFor(if key < s then LeftHalf(N, t) else RightHalf(N, t), d, key) == LeafFor(t, d, key)
  {
    var th := (N + 1) / 2;
    var i := InnerPos(t.seps, key);
    if key < t.seps[th - 1] {
      InnerPosIs(LeftHalf(N, t).seps, key, i);
    } else {
      InnerPosIs(RightHalf(N, t).seps, key, i - th);
    }
  }

  // ---------------------------------------------------------------- every insertion

  /** Every insertion keeps the tree invariant and stores the pair, unless the key is lost. */
  lemma {:induction false} InvParts(N: nat, M: nat, t: Tree, d: nat, hi: Bound)
    requires N >= 3 && Inv(N, M, t, d, hi)
    ensures d == 0 <==> t.Leaf?
    ensures d > 0 ==> |t.seps| <= N && |t.kids| == |t.seps| + 1 && Ascending(t.seps, |t.seps|)
    ensures d > 0 && |t.seps| == N ==> Under(t.seps[(N + 1) / 2 - 1], hi)
  {
  }

  lemma {:induction false} InsertGood(N: nat, M: nat, t: Tree, d: nat, hi: Bound, key: int, value: int)
    requires N >= 3 && M >= 2 && Inv(N, M, t, d, hi) && Under(key, hi)
    ensures Shape(N, M, t, d)
    ensures Good(N, M, t, d, hi, key, value, Insert(N, M, t, d, key, value))
    decreases d, 1
  {
    hide Inv, Good, Entries;
    InvShape(N, M, t, d, hi);
    InvParts(N, M, t, d, hi);
    if d == 0 {
      LeafInsertGood(N, M, t, key, value, hi);
    } else if |t.seps| == N {
      var s, l, r := t.seps[(N + 1) / 2 - 1], LeftHalf(N, t), RightHalf(N, t);
      var o := Insert(N, M, t, d, key, value);
      HalvesGood(N, M, t, d, hi);
      HalvesRoute(N, t, d, key);
      if key < s {
        InnerPutGood(N, M, l, d, Limit(s), key, value);
        assert o == Split(InnerPut(N, M, l, d, key, value), s, r);
        SplitLeft(N, M, t, d, hi, key, value, l, r, s, o.left);
      } else {
        InnerPutGood(N, M, r, d, hi, key, value);
        assert o == Split(l, s, InnerPut(N, M, r, d, key, value));
        SplitRight(N, M, t, d, hi, key, value, l, r, s, o.right);
      }
    } else {
      InnerPutGood(N, M, t, d, hi, key, value);
    }
  }

  lemma {:induction false} SplitLeft(N: nat, M: nat, t: Tree, d: nat, hi: Bound, key: int, value: int,
                  l: Tree, r: Tree, s: int, c: Tree)
    requires Good(N, M, l, d, Limit(s), key, value, Fits(c)) && !Bare(l) && MinKey(l) == MinKey(t)
    requires Inv(N, M, r, d, hi) && !Bare(r) && MinKey(r) == s && key < s && Under(s, hi)
    requires Entries(t) == Entries(l) + Entries(r) && LeafFor(l, d, key) == LeafFor(t, d, key)
    ensures Good(N, M, t, d, hi, key, value, Split(c, s, r))
  {
    forall e | e in Entries(r) ensures key < e.key {
      EntriesWithin(N, M, r, d, hi, e);
    }
    UpsertLeft(Entries(l), Entries(r), key, value);
  }

  lemma {:induction false} SplitRight(N: nat, M: nat, t: Tree, d: nat, hi: Bound, key: int, value: int,
                   l: Tree, r: Tree, s: int, c: Tree)
    requires Inv(N, M, l, d, Limit(s)) && !Bare(l) && MinKey(l) == MinKey(t) && Under(s, hi)
    requires Good(N, M, r, d, hi, key, value, Fits(c)) && !Bare(r) && MinKey(r) == s <= key
    requires Entries(t) == Entries(l) + Entries(r) && LeafFor(r, d, key) == LeafFor(t, d, key)
    ensures Good(N, M, t, d, hi, key, value, Split(l, s, c))
  {
    forall e | e in Entries(l) ensures e.key < key {
      EntriesWithin(N, M, l, d, Limit(s), e);
    }
    UpsertRight(Entries(l), Entries(r), key, value);
    MinUnder(N, M, l, d, Limit(s));
  }

  lemma {:induction false} InnerPutGood(N: nat, M: nat, t: Tree, d: nat, hi: Bound, key: int, value: int)
    requires N >= 3 && M >= 2 && Inv(N, M, t, d, hi) && Under(key, hi) && t.Inner? && |t.seps| < N
    ensures Shape(N, M, t, d)
    ensures Good(N, M, t, d, hi, key, value, Fits(InnerPut(N, M, t, d, key, value)))
    decreases d, 0
  {
    InvShape(N, M, t, d, hi);
    var i := InnerPos(t.seps, key);
    assert KidOk(N, M, t.seps, t.kids[i], i, d - 1, hi);
    hide Inv, Good, Entries, Adopt;
    InsertGood(N, M, t.kids[i], d - 1, KidBound(t.seps, i, hi), key, value);
    var o := Insert(N, M, t.kids[i], d - 1, key, value);
    AdoptInv(N, M, t, d, hi, i, key, value, o);
    AdoptEntries(N, M, t, d, hi, i, key, value, o);
  }

  /** A new root above the two halves of the old one. */
  lemma {:induction false} NewRootGood(N: nat, M: nat, d: nat, o: Outcome)
    requires N >= 1 && o.Split? && Inv(N, M, o.left, d, Limit(o.sep)) && Inv(N, M, o.right, d, Unbounded)
    requires !Bare(o.left) && !Bare(o.right) && MinKey(o.right) == o.sep
    ensures var t := Inner([o.sep], [o.left, o.right]);
            Inv(N, M, t, d + 1, Unbounded) && Entries(t) == Yield(o)
  {
    var t := Inner([o.sep], [o.left, o.right]);
    assert KidOk(N, M, t.seps, t.kids[0], 0, d, Unbounded);
    assert KidOk(N, M, t.seps, t.kids[1], 1, d, Unbounded);
    FlatTwo([], o.left, o.right, []);
    assert [] + [o.left, o.right] + [] == t.kids;
  }

  /** The tree, and its depth, after the root has taken in the outcome of an insertion. */
  function Root(d: nat, o: Outcome): (r: (Tree, nat)) {
    match o
    case Fits(t) => (t, d)
    case Split(l, s, r) => (Inner([s], [l, r]), d + 1)
  }

  lemma {:induction false} RootGood(N: nat, M: nat, t: Tree, d: nat, key: int, value: int)
    requires N >= 3 && M >= 2 && Inv(N, M, t, d, Unbounded)
    ensures Shape(N, M, t, d)
    ensures var (t', d') := Root(d, Insert(N, M, t, d, key, value));
            Inv(N, M, t', d', Unbounded) && Entries(t') == Stored(N, M, t, d, key, value)
  {
    InsertGood(N, M, t, d, Unbounded, key, value);
    var o := Insert(N, M, t, d, key, value);
    if o.Split? {
      NewRootGood(N, M, d, o);
    }
  }
}
