/** Draws, and the load's random permutation (randomgenerator.cc). A draw is any value in its range;
    distributions and seeds are not part of this model. */
module Random {

  method Number(lower: int, upper: int) returns (r: int)
    requires lower <= upper
    ensures lower <= r <= upper
  {
    assert lower <= lower <= upper;
    r :| lower <= r <= upper;
  }

  // ---------------------------------------------------------------- all but one value

  /** The adjustment at randomgenerator.cc:46-48. */
  function Skip(num: int, excluding: int): int {
    if num >= excluding then num + 1 else num
  }

  method NumberExcluding(lower: int, upper: int, excluding: int) returns (r: int)
    requires lower < upper && lower <= excluding <= upper
    ensures lower <= r <= upper && r != excluding
  {
    var num := Number(lower, upper - 1);
    r := Skip(num, excluding);
  }

  /** Every other value of the range comes from exactly one draw. */
  lemma SkipOnto(lower: int, upper: int, excluding: int, v: int)
    requires lower <= excluding <= upper
    ensures (lower <= v <= upper && v != excluding) <==> exists n :: lower <= n <= upper - 1 && Skip(n, excluding) == v
    ensures forall m, n | Skip(m, excluding) == Skip(n, excluding) :: m == n
  {
    if lower <= v <= upper && v != excluding {
      assert Skip(if v > excluding then v - 1 else v, excluding) == v;
    }
  }

  // ---------------------------------------------------------------- strings

  /** generateString (randomgenerator.cc:53-60). */
  method GenerateString(lower: nat, upper: nat, base: char, characters: nat) returns (s: string)
    requires lower <= upper && 0 < characters && base as int + characters <= 128
    ensures lower <= |s| <= upper
    ensures forall i | 0 <= i < |s| :: base as int <= s[i] as int < base as int + characters
  {
    var length := Number(lower, upper);
    s := "";
    while |s| < length
      invariant |s| <= length
      invariant forall i | 0 <= i < |s| :: base as int <= s[i] as int < base as int + characters
    {
      var n := Number(0, characters - 1);
      s := s + [(base as int + n) as char];
    }
  }

  // ---------------------------------------------------------------- a permutation

  predicate Distinct(s: seq<int>) {
    forall i, j | 0 <= i < j < |s| :: s[i] != s[j]
  }

  /** Every value from `lower` to `upper` exactly once. */
  ghost predicate IsPermutation(s: seq<int>, lower: int, upper: int) {
    Distinct(s) && forall v :: v in s <==> lower <= v <= upper
  }

  function Consecutive(lower: int, n: nat): (s: seq<int>)
    ensures |s| == n && forall i | 0 <= i < n :: s[i] == lower + i
  {
    seq(n, i => lower + i)
  }

  function Swap(s: seq<int>, i: nat, j: nat): (r: seq<int>)
    requires i < |s| && j < |s|
    ensures |r| == |s|
  {
    s[i := s[j]][j := s[i]]
  }

  /** The draws for positions from `i` on: each picks its own position or a later one. */
  ghost predicate Draws(d: seq<int>, n: nat, i: nat) {
    |d| == n && forall k | i <= k < n - 1 :: k <= d[k] < n
  }

  /** The loop at randomgenerator.cc:111-117, from position `i` on. */
  function Shuffle(s: seq<int>, d: seq<int>, i: nat): (r: seq<int>)
    requires Draws(d, |s|, i)
    ensures |r| == |s|
    decreases |s| - i
  {
    if i + 1 >= |s| then s else Shuffle(Swap(s, i, d[i]), d, i + 1)
  }

  lemma SwapKeeps(s: seq<int>, i: nat, j: nat)
    requires i <= j < |s|
    ensures var r := Swap(s, i, j);
            && (forall v :: v in r <==> v in s) && (Distinct(s) ==> Distinct(r))
            && r[..i] == s[..i] && r[i] == s[j] && (forall v :: v in r[i..] <==> v in s[i..])
  {
    var r := Swap(s, i, j);
    forall v ensures v in r <==> v in s {
      if k :| 0 <= k < |s| && s[k] == v {
        assert r[if k == i then j else if k == j then i else k] == v;
      }
    }
    forall v ensures v in r[i..] <==> v in s[i..] {
      if k :| i <= k < |s| && s[k] == v {
        assert r[i..][(if k == i then j else if k == j then i else k) - i] == v;
      }
      if k :| i <= k < |r| && r[k] == v {
        assert s[i..][(if k == i then j else if k == j then i else k) - i] == v;
      }
    }
  }

  lemma {:induction false} ShuffleKeeps(s: seq<int>, d: seq<int>, i: nat)
    requires Draws(d, |s|, i)
    ensures var r := Shuffle(s, d, i);
            && (forall v :: v in r <==> v in s) && (Distinct(s) ==> Distinct(r))
            && (i <= |s| ==> r[..i] == s[..i])
    decreases |s| - i
  {
    if i + 1 < |s| {
      SwapKeeps(s, i, d[i]);
      ShuffleKeeps(Swap(s, i, d[i]), d, i + 1);
      var r := Shuffle(s, d, i);
      assert r[..i] == r[..i + 1][..i] == Swap(s, i, d[i])[..i + 1][..i];
    }
  }

  /** Past a position where they agree, two arrangements of the same elements still have the same
      elements. */
  lemma SameRest(s: seq<int>, t: seq<int>, i: nat)
    requires Distinct(s) && Distinct(t) && |s| == |t| && i < |s| && s[..i] == t[..i] && s[i] == t[i]
    requires forall v :: v in s[i..] <==> v in t[i..]
    ensures s[..i + 1] == t[..i + 1]
    ensures var n := i + 1; forall v :: v in s[n..] <==> v in t[n..]
  {
    RestIsRest(s, i);
    RestIsRest(t, i);
    assert s[..i + 1] == s[..i] + [s[i]] && t[..i + 1] == t[..i] + [t[i]];
  }

  lemma RestIsRest(s: seq<int>, i: nat)
    requires Distinct(s) && i < |s|
    ensures var n := i + 1; forall v :: v in s[n..] <==> v in s[i..] && v != s[i]
  {
    assert s[i..] == [s[i]] + s[i + 1..];
    var n := i + 1;
    forall v | v in s[n..] ensures v != s[i] {
      var k :| 0 <= k < |s| - n && s[n..][k] == v;
      assert s[i + 1 + k] == v;
    }
  }

  lemma {:induction false} SameDraws(s: seq<int>, d: seq<int>, e: seq<int>, i: nat)
    requires Draws(d, |s|, i) && Draws(e, |s|, i) && forall k | i <= k < |s| :: d[k] == e[k]
    ensures Shuffle(s, d, i) == Shuffle(s, e, i)
    decreases |s| - i
  {
    if i + 1 < |s| {
      SameDraws(Swap(s, i, d[i]), d, e, i + 1);
    }
  }

  /** Every arrangement of the elements can come out ... */
  lemma {:induction false} ShuffleOnto(s: seq<int>, target: seq<int>, i: nat) returns (d: seq<int>)
    requires Distinct(s) && Distinct(target) && |s| == |target| && i <= |s| && s[..i] == target[..i]
    requires forall v :: v in s[i..] <==> v in target[i..]
    ensures Draws(d, |s|, i) && Shuffle(s, d, i) == target
    decreases |s| - i
  {
    if i + 1 >= |s| {
      d := s;
      if i < |s| {
        assert s[i..] == [s[i]] && target[i..] == [target[i]] && s[i] in target[i..];
      }
      assert s == s[..i] + s[i..] && target == target[..i] + target[i..];
    } else {
      assert target[i] in target[i..];
      var j :| i <= j < |s| && s[j] == target[i];
      SwapKeeps(s, i, j);
      var r := Swap(s, i, j);
      SameRest(r, target, i);
      var e := ShuffleOnto(r, target, i + 1);
      d := e[i := j];
      SameDraws(r, d, e, i + 1);
    }
  }

  /** ... and from one choice of draws only: so equally likely draws give equally likely permutations. */
  lemma {:induction false} ShuffleUnique(s: seq<int>, d: seq<int>, e: seq<int>, i: nat, k: nat)
    requires Distinct(s) && Draws(d, |s|, i) && Draws(e, |s|, i) && Shuffle(s, d, i) == Shuffle(s, e, i)
    requires i <= k < |s| - 1
    ensures d[k] == e[k]
    decreases |s| - i
  {
    var a, b := Swap(s, i, d[i]), Swap(s, i, e[i]);
    SwapKeeps(s, i, d[i]);
    SwapKeeps(s, i, e[i]);
    ShuffleKeeps(a, d, i + 1);
    ShuffleKeeps(b, e, i + 1);
    assert Shuffle(s, d, i)[..i + 1][i] == a[i] && Shuffle(s, e, i)[..i + 1][i] == b[i];
    assert d[i] == e[i];
    if k > i {
      ShuffleUnique(a, d, e, i + 1, k);
    }
  }

  /** makePermutation (randomgenerator.cc:104-120), in place. */
  method MakePermutation(lower: int, upper: int) returns (a: array<int>, ghost d: seq<int>)
    requires lower <= upper
    ensures fresh(a) && a.Length == upper - lower + 1 && Draws(d, a.Length, 0)
    ensures a[..] == Shuffle(Consecutive(lower, a.Length), d, 0)
    ensures IsPermutation(a[..], lower, upper)
  {
    var n := upper - lower + 1;
    a := new int[n];
    var i := 0;
    while i < n
      invariant i <= n && forall k | 0 <= k < i :: a[k] == lower + k
    {
      a[i] := lower + i;
      i := i + 1;
    }
    ghost var s := a[..];
    assert s == Consecutive(lower, n);
    d := seq(n, k => k);
    i := 0;
    while i < n - 1
      invariant i <= n - 1 && a.Length == n && |d| == n && Draws(d, n, 0)
      invariant forall k | i <= k < n :: d[k] == k
      invariant forall e | Draws(e, n, 0) && e[..i] == d[..i] :: Shuffle(s, e, 0) == Shuffle(a[..], e, i)
    {
      var index := Number(i, n - 1);
      ghost var was, before := a[..], d;
      a[i], a[index] := a[index], a[i];
      d := d[i := index];
      assert a[..] == Swap(was, i, index);
      forall e | Draws(e, n, 0) && e[..i + 1] == d[..i + 1] ensures Shuffle(s, e, 0) == Shuffle(a[..], e, i + 1) {
        assert e[i] == e[..i + 1][i] == index;
        assert e[..i] == e[..i + 1][..i] == before[..i];
      }
      i := i + 1;
    }
    assert Shuffle(a[..], d, i) == a[..];
    ShuffleKeeps(s, d, 0);
    forall v ensures v in s <==> lower <= v <= upper {
      if lower <= v <= upper { assert s[v - lower] == v; }
    }
  }
}
