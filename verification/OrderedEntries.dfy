/** Sorted association lists with tombstones, and the finite ordered map they denote. */
module OrderedEntries {
  datatype Entry = Entry(key: int, value: int)

  ghost predicate Sorted(es: seq<Entry>) {
    forall i, j | 0 <= i < j < |es| :: es[i].key < es[j].key
  }

  /** Insert or overwrite, keeping the order. */
  function Upsert(es: seq<Entry>, key: int, value: int): seq<Entry> {
    if es == [] then [Entry(key, value)]
    else if es[0].key < key then [es[0]] + Upsert(es[1..], key, value)
    else if es[0].key == key then [Entry(key, value)] + es[1..]
    else [Entry(key, value)] + es
  }

  /** The value stored under `key`; 0 if there is none or the key is deleted. */
  function Lookup(es: seq<Entry>, key: int): int {
    if es == [] then 0
    else if es[0].key == key then es[0].value
    else Lookup(es[1..], key)
  }

  function KeySet(es: seq<Entry>): (s: set<int>) {
    set e | e in es :: e.key
  }

  /** The finite map from keys to latest nonzero values. */
  function Contents(es: seq<Entry>): map<int, int> {
    map k | k in KeySet(es) && Lookup(es, k) != 0 :: Lookup(es, k)
  }

  /** `m` after the key is given this value, where the value 0 stands for "deleted". */
  function Assign(m: map<int, int>, key: int, value: int): map<int, int> {
    if value == 0 then m - {key} else m[key := value]
  }

  /** `k` is the greatest key of `m` below `key`. */
  ghost predicate IsLastLessThan<V>(m: map<int, V>, key: int, k: int) {
    k in m && k < key && forall j | j in m && j < key :: j <= k
  }

  lemma SortedConcat(a: seq<Entry>, b: seq<Entry>)
    requires Sorted(a) && Sorted(b)
    requires forall x, y | x in a && y in b :: x.key < y.key
    ensures Sorted(a + b)
  {
    var c := a + b;
    forall i, j | 0 <= i < j < |c| ensures c[i].key < c[j].key {
      if i < |a| <= j {
        assert c[i] == a[i] && c[j] == b[j - |a|];
      }
    }
  }

  lemma {:induction false} UpsertRight(a: seq<Entry>, b: seq<Entry>, key: int, value: int)
    requires forall e | e in a :: e.key < key
    ensures Upsert(a + b, key, value) == a + Upsert(b, key, value)
  {
    if a == [] {
      assert a + b == b;
    } else {
      assert (a + b)[1..] == a[1..] + b;
      UpsertRight(a[1..], b, key, value);
    }
  }

  lemma {:induction false} UpsertLeft(a: seq<Entry>, b: seq<Entry>, key: int, value: int)
    requires forall e | e in b :: key < e.key
    ensures Upsert(a + b, key, value) == Upsert(a, key, value) + b
  {
    if a == [] {
      assert a + b == b;
    } else {
      var e := [Entry(key, value)];
      assert (a + b)[1..] == a[1..] + b;
      if a[0].key < key {
        UpsertLeft(a[1..], b, key, value);
        assert [a[0]] + (Upsert(a[1..], key, value) + b) == ([a[0]] + Upsert(a[1..], key, value)) + b;
      } else if a[0].key == key {
        assert e + (a[1..] + b) == (e + a[1..]) + b;
      } else {
        assert e + (a + b) == (e + a) + b;
      }
    }
  }

  lemma {:induction false} LookupAbsent(es: seq<Entry>, key: int)
    requires forall e | e in es :: e.key != key
    ensures Lookup(es, key) == 0
  {
    if es != [] {
      LookupAbsent(es[1..], key);
    }
  }

  /** Looking up is asking the map, with 0 for what is not there. */
  lemma MapLookup(es: seq<Entry>, key: int)
    ensures var m := Contents(es); Lookup(es, key) == (if key in m then m[key] else 0) && (key in m <==> Lookup(es, key) != 0)
  {
    if key !in KeySet(es) {
      forall e | e in es ensures e.key != key {
        assert e.key in KeySet(es);
      }
      LookupAbsent(es, key);
    }
  }

  lemma {:induction false} LookupConcat(a: seq<Entry>, b: seq<Entry>, key: int)
    ensures Lookup(a + b, key) == if key in KeySet(a) then Lookup(a, key) else Lookup(b, key)
  {
    if a == [] {
      assert a + b == b;
    } else {
      assert (a + b)[1..] == a[1..] + b;
      LookupConcat(a[1..], b, key);
    }
  }

  lemma {:induction false} LookupAt(es: seq<Entry>, i: nat)
    requires Sorted(es) && i < |es|
    ensures Lookup(es, es[i].key) == es[i].value
  {
    if i > 0 {
      LookupAt(es[1..], i - 1);
    }
  }

  lemma {:induction false} UpsertLookup(es: seq<Entry>, key: int, value: int, k: int)
    ensures Lookup(Upsert(es, key, value), k) == if k == key then value else Lookup(es, k)
  {
    if es != [] && es[0].key < key {
      UpsertLookup(es[1..], key, value, k);
    }
  }

  lemma {:induction false} UpsertKeys(es: seq<Entry>, key: int, value: int)
    ensures KeySet(Upsert(es, key, value)) == KeySet(es) + {key}
  {
    if es != [] {
      KeySetCons(es[0], es[1..]);
      assert es == [es[0]] + es[1..];
      UpsertKeys(es[1..], key, value);
      KeySetCons(es[0], Upsert(es[1..], key, value));
      KeySetCons(Entry(key, value), es[1..]);
      KeySetCons(Entry(key, value), es);
    }
  }

  lemma KeySetCons(e: Entry, es: seq<Entry>)
    ensures KeySet([e] + es) == {e.key} + KeySet(es)
  {
    assert forall x :: x in [e] + es <==> x == e || x in es;
    assert e in [e] + es;
  }

  /** Inserting is assignment on the map; inserting on a deleted key revives it. */
  lemma {:induction false} UpsertContents(es: seq<Entry>, key: int, value: int)
    ensures Contents(Upsert(es, key, value)) == Assign(Contents(es), key, value)
  {
    UpsertKeys(es, key, value);
    var m := Contents(Upsert(es, key, value));
    forall k ensures Lookup(Upsert(es, key, value), k) == if k == key then value else Lookup(es, k) {
      UpsertLookup(es, key, value, k);
    }
  }

  /** Upsert in terms of the position that a search for the key finds. */
  lemma {:induction false} UpsertAt(es: seq<Entry>, key: int, value: int, p: nat)
    requires p <= |es| && (forall i | 0 <= i < p :: es[i].key < key)
    requires p < |es| ==> key <= es[p].key
    ensures Upsert(es, key, value) ==
            if p < |es| && es[p].key == key then es[p := Entry(key, value)]
            else es[..p] + [Entry(key, value)] + es[p..]
  {
    if p > 0 {
      UpsertAt(es[1..], key, value, p - 1);
    }
  }
}
