/** Lookup, deletion by tombstone and predecessor search on tree values (btree.h:113-214). */
module BTreeSearch {
  import opened OrderedEntries
  import opened BTreeModel
  import opened BTreeInsert

  // ---------------------------------------------------------------- find

  /** What `find` reads in the leaf it ends in: the value stored with the key, or 0. */
  function LeafLookup(leaf: Tree, key: int): int
    requires leaf.Leaf? && |leaf.values| <= |leaf.keys|
  {
    var i := LeafPos(leaf.keys, |leaf.values|, key);
    if i < |leaf.values| && leaf.keys[i] == key then leaf.values[i] else 0
  }

  predicate LeafHolds(leaf: Tree, key: int)
    requires leaf.Leaf? && |leaf.values| <= |leaf.keys|
  {
    var i := LeafPos(leaf.keys, |leaf.values|, key);
    i < |leaf.values| && leaf.keys[i] == key
  }

  lemma {:induction false} LeafLookupRight(N: nat, M: nat, t: Tree, hi: Bound, key: int)
    requires Inv(N, M, t, 0, hi)
    ensures Lookup(Entries(t), key) == LeafLookup(t, key)
    ensures key in KeySet(Entries(t)) <==> LeafHolds(t, key)
  {
    var i := LeafPos(t.keys, |t.values|, key);
    var es := Entries(t);
    if LeafHolds(t, key) {
      assert es[i] in es;
      EntriesSorted(N, M, t, 0, hi);
      LookupAt(es, i);
    } else {
      forall e | e in es ensures e.key != key {
        var j :| 0 <= j < |es| && es[j] == e;
        assert t.keys[j] == e.key;
      }
      LookupAbsent(es, key);
    }
  }

  /** The descent of `find` loses nothing: the leaf it reaches answers for the whole tree. */
  lemma {:induction false} FindRight(N: nat, M: nat, t: Tree, d: nat, hi: Bound, key: int)
    requires Inv(N, M, t, d, hi) && Under(key, hi)
    ensures var leaf := LeafFor(t, d, key);
            && leaf.Leaf? && |leaf.values| <= |leaf.keys| == M
            && Lookup(Entries(t), key) == LeafLookup(leaf, key)
            && (key in KeySet(Entries(t)) <==> LeafHolds(leaf, key))
            && (|leaf.values| < M && leaf.keys[|leaf.values|] == key ==> key == 0)
    decreases d
  {
    if d == 0 {
      LeafLookupRight(N, M, t, hi, key);
    } else {
      var i := InnerPos(t.seps, key);
      assert KidOk(N, M, t.seps, t.kids[i], i, d - 1, hi);
      FindRight(N, M, t.kids[i], d - 1, KidBound(t.seps, i, hi), key);
      var a, m, b := Flat(t.kids[..i]), Entries(t.kids[i]), Flat(t.kids[i + 1..]);
      FlatAround(t.kids, i);
      RouteSeparates(N, M, t, d, hi, key);
      LookupMiddle(a, m, b, key);
    }
  }

  lemma {:induction false} LookupMiddle(a: seq<Entry>, m: seq<Entry>, b: seq<Entry>, key: int)
    requires (forall e | e in a :: e.key < key) && (forall e | e in b :: key < e.key)
    ensures Lookup(a + m + b, key) == Lookup(m, key)
    ensures key in KeySet(a + m + b) <==> key in KeySet(m)
  {
    LookupConcat(a + m, b, key);
    LookupConcat(a, m, key);
    LookupAbsent(b, key);
    if key in KeySet(a + m + b) {
      var e :| e in a + m + b && e.key == key;
      assert e in a || e in m || e in b;
    }
    if key in KeySet(m) {
      var e :| e in m && e.key == key;
      assert e in a + m && e in a + m + b;
    } else {
      LookupAbsent(m, key);
    }
  }

  // ---------------------------------------------------------------- del

  /** The slot that a leaf search ends at. */
  function SlotOf(leaf: Tree, key: int): nat {
    if leaf.Leaf? && |leaf.values| <= |leaf.keys| then LeafPos(leaf.keys, |leaf.values|, key) else 0
  }

  /** The tree after the value in the slot that the search ends at is overwritten with 0. */
  function Tombstone(t: Tree, d: nat, key: int): Tree
    decreases d
  {
    if d == 0 || t.Leaf? then
      if t.Leaf? && |t.values| <= |t.keys| && LeafHolds(t, key)
      then Leaf(t.keys, t.values[LeafPos(t.keys, |t.values|, key) := 0]) else t
    else
      var i := InnerPos(t.seps, key);
      if i < |t.kids| then Inner(t.seps, t.kids[i := Tombstone(t.kids[i], d - 1, key)]) else t
  }

  /** Deleting keeps the tree, its keys and every other value; the key's own value becomes 0. */
  lemma {:induction false} TombstoneRight(N: nat, M: nat, t: Tree, d: nat, hi: Bound, key: int)
    requires Inv(N, M, t, d, hi) && Under(key, hi)
    ensures var c := Tombstone(t, d, key);
            && Inv(N, M, c, d, hi) && MinKey(c) == MinKey(t) && Bare(c) == Bare(t)
            && Entries(c) == if key in KeySet(Entries(t)) then Upsert(Entries(t), key, 0) else Entries(t)
    decreases d
  {
    if d == 0 {
      LeafLookupRight(N, M, t, hi, key);
      if LeafHolds(t, key) {
        var i := LeafPos(t.keys, |t.values|, key);
        UpsertAt(Entries(t), key, 0, i);
        assert Entries(Tombstone(t, 0, key)) == Entries(t)[i := Entry(key, 0)];
      }
    } else {
      var i := InnerPos(t.seps, key);
      var kid, o := t.kids[i], Fits(Tombstone(t.kids[i], d - 1, key));
      assert KidOk(N, M, t.seps, kid, i, d - 1, hi);
      TombstoneRight(N, M, kid, d - 1, KidBound(t.seps, i, hi), key);
      TombstoneKids(N, M, t, d, hi, i, o.node);
      var a, m, b := Flat(t.kids[..i]), Entries(kid), Flat(t.kids[i + 1..]);
      FlatAround(t.kids, i);
      AdoptFlat(t, i, o);
      RouteSeparates(N, M, t, d, hi, key);
      LookupMiddle(a, m, b, key);
      UpsertMiddle(a, m, b, key, 0);
    }
  }

  lemma TombstoneKids(N: nat, M: nat, t: Tree, d: nat, hi: Bound, i: nat, c: Tree)
    requires Inv(N, M, t, d, hi) && t.Inner? && i < |t.kids|
    requires Inv(N, M, c, d - 1, KidBound(t.seps, i, hi))
    requires MinKey(c) == MinKey(t.kids[i]) && Bare(c) == Bare(t.kids[i])
    ensures var r := Inner(t.seps, t.kids[i := c]); Inv(N, M, r, d, hi) && MinKey(r) == MinKey(t)
  {
    var r := Inner(t.seps, t.kids[i := c]);
    forall j | 0 <= j < |r.kids| ensures KidOk(N, M, r.seps, r.kids[j], j, d - 1, hi) {
      assert KidOk(N, M, t.seps, t.kids[j], j, d - 1, hi);
    }
  }

  // ---------------------------------------------------------------- findLastLessThan

  /** inner_position_for, rewound by one when the separator found is the key itself. */
  function PosBefore(seps: seq<int>, key: int): (p: nat)
    ensures p <= |seps|
    ensures p > 0 && Ascending(seps, |seps|) ==> seps[p - 1] < key
    ensures p < |seps| ==> key <= seps[p]
  {
    var p := InnerPos(seps, key);
    if p > 0 && key == seps[p - 1] then p - 1 else p
  }

  /** The leaf that the predecessor search ends in. */
  function LeafBefore(t: Tree, d: nat, key: int): Tree
    decreases d
  {
    if d == 0 || t.Leaf? then t
    else
      var i := PosBefore(t.seps, key);
      if i < |t.kids| then LeafBefore(t.kids[i], d - 1, key) else t
  }

  /** `e` is the entry of `es` with the greatest key below `key`. */
  ghost predicate IsPrevious(es: seq<Entry>, key: int, e: Entry) {
    e in es && e.key < key && forall f | f in es && f.key < key :: f.key <= e.key
  }

  /** One descent without backtracking: slot 0 is reached only when no stored key is smaller,
      because a separator is the minimum of the subtree on its right. */
  lemma {:induction false} PreviousRight(N: nat, M: nat, t: Tree, d: nat, hi: Bound, key: int)
    requires Inv(N, M, t, d, hi)
    ensures var leaf := LeafBefore(t, d, key);
            && leaf.Leaf? && |leaf.values| <= |leaf.keys| == M
            && var p := LeafPos(leaf.keys, |leaf.values|, key);
               if p == 0 then forall e | e in Entries(t) :: key <= e.key
               else IsPrevious(Entries(t), key, Entry(leaf.keys[p - 1], leaf.values[p - 1]))
    decreases d
  {
    if d == 0 {
      PreviousInLeaf(N, M, t, hi, key);
    } else {
      var i := PosBefore(t.seps, key);
      assert KidOk(N, M, t.seps, t.kids[i], i, d - 1, hi);
      PreviousRight(N, M, t.kids[i], d - 1, KidBound(t.seps, i, hi), key);
      MinUnder(N, M, t.kids[i], d - 1, KidBound(t.seps, i, hi));
      assert Entries(t.kids[i])[0] in Entries(t.kids[i]);
      FlatAround(t.kids, i);
      forall e | e in Entries(t) && e !in Entries(t.kids[i])
        ensures (exists m | m in Entries(t.kids[i]) :: e.key < m.key < key) || key <= e.key
      {
        PreviousElsewhere(N, M, t, d, hi, key, e);
      }
    }
  }

  lemma {:induction false} PreviousInLeaf(N: nat, M: nat, t: Tree, hi: Bound, key: int)
    requires Inv(N, M, t, 0, hi)
    ensures var p := LeafPos(t.keys, |t.values|, key);
            if p == 0 then forall e | e in Entries(t) :: key <= e.key
            else IsPrevious(Entries(t), key, Entry(t.keys[p - 1], t.values[p - 1]))
  {
    var p := LeafPos(t.keys, |t.values|, key);
    var es := Entries(t);
    assert p > 0 ==> es[p - 1] in es;
    forall f | f in es && f.key < key ensures p > 0 && f.key <= t.keys[p - 1] {
      var j :| 0 <= j < |es| && es[j] == f;
      assert t.keys[j] == f.key;
    }
  }

  /** Entries of the other children are below the chosen child's minimum, or not below the key. */
  lemma {:induction false} PreviousElsewhere(N: nat, M: nat, t: Tree, d: nat, hi: Bound, key: int, e: Entry)
    requires Inv(N, M, t, d, hi) && t.Inner?
    requires e in Entries(t) && e !in Entries(t.kids[PosBefore(t.seps, key)])
    ensures var kid := t.kids[PosBefore(t.seps, key)];
            (exists m | m in Entries(kid) :: e.key < m.key < key) || key <= e.key
  {
    var i := PosBefore(t.seps, key);
    var kid := t.kids[i];
    var j := FlatMember(t.kids, e);
    assert KidOk(N, M, t.seps, t.kids[j], j, d - 1, hi);
    EntriesWithin(N, M, t.kids[j], d - 1, KidBound(t.seps, j, hi), e);
    if j < i {
      assert KidOk(N, M, t.seps, kid, i, d - 1, hi);
      MinUnder(N, M, kid, d - 1, KidBound(t.seps, i, hi));
      assert t.seps[j] <= t.seps[i - 1];
      assert Entries(kid)[0] in Entries(kid);
    } else {
      assert t.seps[i] <= t.seps[j - 1];
    }
  }

  /** The stored keys below `key`: what each restart of the search makes smaller. */
  ghost function Lower(es: seq<Entry>, key: int): set<int> {
    set e | e in es && e.key < key :: e.key
  }

  /** Skipping a tombstone: the answers for `key` are the answers for the skipped key. */
  lemma SkipTombstone(es: seq<Entry>, key: int, e: Entry)
    requires Sorted(es) && IsPrevious(es, key, e) && e.value == 0
    ensures Lower(es, e.key) < Lower(es, key)
    ensures forall k :: IsLastLessThan(Contents(es), e.key, k) <==> IsLastLessThan(Contents(es), key, k)
    ensures (forall k | k in Contents(es) :: e.key <= k) <==> (forall k | k in Contents(es) :: key <= k)
  {
    assert e.key in Lower(es, key) && e.key !in Lower(es, e.key);
    var i :| 0 <= i < |es| && es[i] == e;
    LookupAt(es, i);
    var m := Contents(es);
    assert e.key !in m;
    forall k | k in m && k < key ensures k < e.key {
      var f :| f in es && f.key == k;
    }
  }

  /** A live previous entry is the answer. */
  lemma LivePrevious(es: seq<Entry>, key: int, e: Entry)
    requires Sorted(es) && IsPrevious(es, key, e) && e.value != 0
    ensures IsLastLessThan(Contents(es), key, e.key) && Contents(es)[e.key] == e.value
  {
    var i :| 0 <= i < |es| && es[i] == e;
    LookupAt(es, i);
    assert e.key in KeySet(es);
    forall k | k in Contents(es) && k < key ensures k <= e.key {
      var f :| f in es && f.key == k;
    }
  }

  lemma NoPrevious(es: seq<Entry>, key: int)
    requires forall e | e in es :: key <= e.key
    ensures forall k | k in Contents(es) :: key <= k
  {
    forall k | k in Contents(es) ensures key <= k {
      var f :| f in es && f.key == k;
    }
  }

  // ---------------------------------------------------------------- insert, as a map

  /** A lost key is absent, and storing it under a nonzero value would have changed the map. */
  lemma {:induction false} InsertMap(N: nat, M: nat, t: Tree, d: nat, key: int, value: int)
    requires Inv(N, M, t, d, Unbounded)
    ensures Contents(Stored(N, M, t, d, key, value)) == Assign(Contents(Entries(t)), key, value)
            <==> value == 0 || !Loses(N, M, t, d, key)
    ensures Loses(N, M, t, d, key) ==> key == 0 && key !in KeySet(Entries(t))
  {
    if Loses(N, M, t, d, key) {
      FindRight(N, M, t, d, Unbounded, key);
      assert key !in Contents(Entries(t));
      if value != 0 {
        assert key in Assign(Contents(Entries(t)), key, value);
      }
    } else {
      UpsertContents(Entries(t), key, value);
    }
  }

  /** What `del` finds, and what it leaves behind. */
  lemma {:induction false} DelRight(N: nat, M: nat, t: Tree, d: nat, key: int)
    requires Inv(N, M, t, d, Unbounded)
    ensures var c := Tombstone(t, d, key);
            && Inv(N, M, c, d, Unbounded)
            && Contents(Entries(c)) == Contents(Entries(t)) - {key} && KeySet(Entries(c)) == KeySet(Entries(t))
    ensures var leaf := LeafFor(t, d, key);
            && leaf.Leaf? && |leaf.keys| == M
            && var p := SlotOf(leaf, key);
               p < M ==> (leaf.keys[p] == key <==> key in KeySet(Entries(t)) || Loses(N, M, t, d, key))
  {
    hide Inv, Tombstone, LeafFor, Entries;
    FindRight(N, M, t, d, Unbounded, key);
    TombstoneRight(N, M, t, d, Unbounded, key);
    if key in KeySet(Entries(t)) {
      UpsertContents(Entries(t), key, 0);
      UpsertKeys(Entries(t), key, 0);
    }
  }
}
