/** The customer index by last name (tpcctables.cc:13-29, 708-761), and the names that the load
    makes (randomgenerator.cc:123-138). */
module CustomerNames {
  import opened Rows

  const MAX_LAST := 16

  // ---------------------------------------------------------------- strcmp

  /** strcmp(a, b) < 0. */
  predicate StrLess(a: string, b: string) {
    if b == "" then false
    else if a == "" then true
    else if a[0] != b[0] then a[0] < b[0]
    else StrLess(a[1..], b[1..])
  }

  lemma {:induction false} StrTotal(a: string, b: string)
    ensures StrLess(a, b) || a == b || StrLess(b, a)
    ensures !(StrLess(a, b) && StrLess(b, a)) && !StrLess(a, a)
  {
    if a != "" && b != "" {
      StrTotal(a[1..], b[1..]);
      assert a == [a[0]] + a[1..] && b == [b[0]] + b[1..];
    }
    if a != "" { StrTotal(a[1..], a[1..]); }
  }

  lemma {:induction false} StrTransitive(a: string, b: string, c: string)
    requires StrLess(a, b) && StrLess(b, c)
    ensures StrLess(a, c)
  {
    if a != "" && b != "" && c != "" && a[0] == b[0] == c[0] {
      StrTransitive(a[1..], b[1..], c[1..]);
    }
  }

  // ---------------------------------------------------------------- the ordering

  datatype NameKey = NameKey(w: int, d: int, last: string, first: string)

  function KeyOf(c: Customer): NameKey {
    NameKey(c.c_w_id, c.c_d_id, c.c_last, c.c_first)
  }

  /** CustomerByNameOrdering. */
  predicate Before(a: NameKey, b: NameKey) {
    if a.w < b.w then true else if a.w > b.w then false
    else if a.d < b.d then true else if a.d > b.d then false
    else if StrLess(a.last, b.last) then true else if StrLess(b.last, a.last) then false
    else StrLess(a.first, b.first)
  }

  /** It is a strict total order, as std::set requires. */
  lemma BeforeTotal(a: NameKey, b: NameKey, c: NameKey)
    ensures Before(a, b) || a == b || Before(b, a)
    ensures !(Before(a, b) && Before(b, a)) && !Before(a, a)
    ensures Before(a, b) && Before(b, c) ==> Before(a, c)
  {
    StrTotal(a.last, b.last);
    StrTotal(b.last, c.last);
    StrTotal(a.last, c.last);
    StrTotal(a.first, b.first);
    if StrLess(a.last, b.last) && StrLess(b.last, c.last) { StrTransitive(a.last, b.last, c.last); }
    if StrLess(a.first, b.first) && StrLess(b.first, c.first) { StrTransitive(a.first, b.first, c.first); }
  }

  /** The contents of the std::set, in its order. */
  ghost predicate Ordered(index: seq<Customer>) {
    forall i, j | 0 <= i < j < |index| :: Before(KeyOf(index[i]), KeyOf(index[j]))
  }

  /** lower_bound: the position of the first element that is not before the key. */
  method LowerBound(index: seq<Customer>, key: NameKey) returns (p: nat)
    requires Ordered(index)
    ensures p <= |index|
    ensures forall i | 0 <= i < |index| :: Before(KeyOf(index[i]), key) <==> i < p
  {
    p := 0;
    while p < |index| && Before(KeyOf(index[p]), key)
      invariant p <= |index| && forall i | 0 <= i < p :: Before(KeyOf(index[i]), key)
    {
      p := p + 1;
    }
    forall i | p <= i < |index| ensures !Before(KeyOf(index[i]), key) {
      BeforeTotal(KeyOf(index[p]), KeyOf(index[i]), key);
    }
  }

  /** insertCustomer on this index: a second customer with the same four fields is not stored. */
  method InsertByName(index: seq<Customer>, c: Customer) returns (r: seq<Customer>, inserted: bool, p: nat)
    requires Ordered(index)
    ensures Ordered(r)
    ensures inserted <==> forall i | 0 <= i < |index| :: KeyOf(index[i]) != KeyOf(c)
    ensures p <= |index| && r == if inserted then index[..p] + [c] + index[p..] else index
  {
    p := LowerBound(index, KeyOf(c));
    forall i | 0 <= i < |index| ensures KeyOf(index[i]) == KeyOf(c) ==> i == p {
      BeforeTotal(KeyOf(c), KeyOf(c), KeyOf(c));
      if i > p { BeforeTotal(KeyOf(index[p]), KeyOf(index[i]), KeyOf(index[i])); }
    }
    if p < |index| && KeyOf(index[p]) == KeyOf(c) {
      return index, false, p;
    }
    r, inserted := index[..p] + [c] + index[p..], true;
    forall i, j | 0 <= i < j < |r| ensures Before(KeyOf(r[i]), KeyOf(r[j])) {
      if j > p && i == p {
        BeforeTotal(KeyOf(c), KeyOf(index[j - 1]), KeyOf(c));
      }
    }
  }

  // ---------------------------------------------------------------- the next last name

  /** tpcctables.cc:730-736. */
  function NextName(last: string): string {
    if |last| == MAX_LAST then last[..|last| - 1] + [((last[|last| - 1] as int + 1) % 256) as char] else last + "A"
  }

  predicate Letters(s: string) {
    |s| <= MAX_LAST && forall i | 0 <= i < |s| :: 'A' <= s[i] <= 'z'
  }

  lemma {:induction false} GapBelowA(n: string, last: string)
    ensures !StrLess(n, last) && StrLess(n, last + "A") <==> n == last || (last < n && n[|last|] < 'A')
  {
    if last != "" && n != "" && n[0] == last[0] {
      GapBelowA(n[1..], last[1..]);
      assert (last + "A")[1..] == last[1..] + "A";
      assert n == [n[0]] + n[1..] && last == [last[0]] + last[1..];
    }
  }

  lemma {:induction false} GapAbove(n: string, last: string, up: char)
    requires last != "" && up as int == last[|last| - 1] as int + 1
    ensures !StrLess(n, last) && StrLess(n, last[..|last| - 1] + [up]) <==> last <= n
  {
    var k := |last| - 1;
    var next := last[..k] + [up];
    if n != "" {
      if k > 0 {
        if n[0] == last[0] {
          GapAbove(n[1..], last[1..], up);
          assert next[1..] == last[1..][..k - 1] + [up];
          assert last <= n <==> last[1..] <= n[1..] by {
            assert n == [n[0]] + n[1..] && last == [last[0]] + last[1..];
          }
        }
      } else {
        assert last[1..] == "" && next[1..] == "";
      }
    }
  }

  /** Exactly which other names fall between a name and its successor: a longer name that goes on
      with a character below 'A', or one that goes on past 16 characters. */
  lemma {:induction false} Gap(n: string, last: string)
    requires |last| <= MAX_LAST && (|last| == MAX_LAST ==> last[|last| - 1] < 127 as char)
    ensures !StrLess(n, last) && StrLess(n, NextName(last)) <==>
            n == last || (last < n && (n[|last|] < 'A' || |last| == MAX_LAST))
  {
    if |last| == MAX_LAST {
      GapAbove(n, last, (last[|last| - 1] as int + 1) as char);
    } else {
      GapBelowA(n, last);
    }
  }

  // ---------------------------------------------------------------- the middle one

  predicate Matches(c: Customer, w: int, d: int, last: string) {
    c.c_w_id == w && c.c_d_id == d && c.c_last == last
  }

  /** The customers of that name are those from `lo` on, `n` of them. */
  ghost predicate IsGroup(index: seq<Customer>, w: int, d: int, last: string, lo: nat, n: nat) {
    lo + n <= |index| && forall i | 0 <= i < |index| :: Matches(index[i], w, d, last) <==> lo <= i < lo + n
  }

  /** The two bounds delimit a customer exactly if its name is the one looked for. */
  lemma BoundsMatch(c: Customer, w: int, d: int, last: string)
    requires Letters(last) && Letters(c.c_last)
    ensures !Before(KeyOf(c), NameKey(w, d, last, "")) && Before(KeyOf(c), NameKey(w, d, NextName(last), ""))
            <==> Matches(c, w, d, last)
    ensures Before(KeyOf(c), NameKey(w, d, last, "")) ==> Before(KeyOf(c), NameKey(w, d, NextName(last), ""))
  {
    Gap(c.c_last, last);
    Gap(last, last);
    StrTotal(c.c_last, last);
    StrTotal(c.c_last, NextName(last));
    StrTotal(last, last);
    if StrLess(c.c_last, last) { StrTransitive(c.c_last, last, NextName(last)); }
  }

  /** Of the n customers of that name, the one at 0-based position floor((n - 1) / 2)
      (section 2.5.2.2 of TPC-C). */
  method FindCustomerByName(index: seq<Customer>, w: int, d: int, last: string)
    returns (customer: Customer)
    requires Ordered(index) && Letters(last) && forall i | 0 <= i < |index| :: Letters(index[i].c_last)
    requires exists i :: 0 <= i < |index| && Matches(index[i], w, d, last)
    ensures exists lo: nat, n: nat :: IsGroup(index, w, d, last, lo, n) && n > 0 && customer == index[lo + (n - 1) / 2]
  {
    var it := LowerBound(index, NameKey(w, d, last, ""));
    var stop := LowerBound(index, NameKey(w, d, NextName(last), ""));
    forall i | 0 <= i < |index| ensures Matches(index[i], w, d, last) <==> it <= i < stop {
      BoundsMatch(index[i], w, d, last);
    }
    ghost var some :| 0 <= some < |index| && Matches(index[some], w, d, last);
    ghost var lo, n := it, stop - it;
    assert IsGroup(index, w, d, last, lo, n);
    var middle := it;
    it := it + 1;
    var i := 0;
    while it != stop
      invariant it == lo + 1 + i <= stop && middle == lo + i / 2
      decreases stop - it
    {
      if i % 2 == 1 {
        middle := middle + 1;
      }
      it := it + 1;
      i := i + 1;
    }
    customer := index[middle];
  }

  // ---------------------------------------------------------------- the names of the load

  function Syllable(n: nat): (s: string)
    requires n < 10
    ensures 3 <= |s| <= 5 && forall i | 0 <= i < |s| :: 'A' <= s[i] <= 'Z'
  {
    ["BAR", "OUGHT", "ABLE", "PRI", "PRES", "ESE", "ANTI", "CALLY", "ATION", "EING"][n]
  }

  /** makeLastName: names that the search by name can tell apart from their neighbours. */
  function LastName(num: nat): (s: string)
    requires num <= 999
    ensures Letters(s) && 9 <= |s| <= 15
  {
    Syllable(num / 100) + Syllable(num / 10 % 10) + Syllable(num % 10)
  }

  // ---------------------------------------------------------------- reading a name

  datatype Reading = Nothing | Digit(value: nat, rest: string)

  /** The syllable that a name begins with, and what follows it. */
  function FirstDigit(name: string): Reading {
    if "BAR" <= name then Digit(0, name[3..])
    else if "OUGHT" <= name then Digit(1, name[5..])
    else if "ABLE" <= name then Digit(2, name[4..])
    else if "PRI" <= name then Digit(3, name[3..])
    else if "PRES" <= name then Digit(4, name[4..])
    else if "ESE" <= name then Digit(5, name[3..])
    else if "ANTI" <= name then Digit(6, name[4..])
    else if "CALLY" <= name then Digit(7, name[5..])
    else if "ATION" <= name then Digit(8, name[5..])
    else if "EING" <= name then Digit(9, name[4..])
    else Nothing
  }

  /** A name is read from the left: hundreds, tens and ones, and nothing after them. */
  predicate ReadsAs(name: string, num: nat) {
    var a := FirstDigit(name);
    a.Digit? &&
    var b := FirstDigit(a.rest);
    b.Digit? &&
    var c := FirstDigit(b.rest);
    c.Digit? && c.rest == "" && num == 100 * a.value + 10 * b.value + c.value
  }

  lemma Begins(p: string, s: string, t: string)
    requires |p| <= |s|
    ensures p <= s + t <==> p == s[..|p|]
  {
    assert (s + t)[..|p|] == s[..|p|];
  }

  /** Their first three letters tell the syllables apart, so no name can be read in two ways. */
  lemma SyllablesDiffer(a: nat, b: nat)
    requires a < 10 && b < 10 && Syllable(a)[..3] == Syllable(b)[..3]
    ensures a == b
  {
    assert Syllable(a)[0] == Syllable(a)[..3][0] == Syllable(b)[0];
    assert Syllable(a)[1] == Syllable(a)[..3][1] == Syllable(b)[1];
    assert Syllable(a)[2] == Syllable(a)[..3][2] == Syllable(b)[2];
  }

  /** No other syllable begins a name that this one begins. */
  lemma BeginsOnce(a: nat, b: nat, t: string)
    requires a < 10 && b < 10 && Syllable(a) <= Syllable(b) + t
    ensures a == b
  {
    hide Syllable;
    assert (Syllable(b) + t)[..3] == Syllable(b)[..3];
    assert Syllable(a)[..3] == (Syllable(b) + t)[..|Syllable(a)|][..3];
    SyllablesDiffer(a, b);
  }

  lemma DigitRead(d: nat, t: string)
    requires d < 10
    ensures FirstDigit(Syllable(d) + t) == Digit(d, t)
  {
    var name := Syllable(d) + t;
    assert name[|Syllable(d)|..] == t && Syllable(d) <= name;
    forall a: nat | a < 10 && Syllable(a) <= name ensures a == d {
      BeginsOnce(a, d, t);
    }
    assert "BAR" == Syllable(0) && "OUGHT" == Syllable(1) && "ABLE" == Syllable(2) && "PRI" == Syllable(3) && "PRES" == Syllable(4);
    assert "ESE" == Syllable(5) && "ANTI" == Syllable(6) && "CALLY" == Syllable(7) && "ATION" == Syllable(8) && "EING" == Syllable(9);
  }

  lemma DigitWritten(name: string)
    requires FirstDigit(name).Digit?
    ensures var d := FirstDigit(name); d.value < 10 && name == Syllable(d.value) + d.rest
  {
  }

  lemma Digits(x: nat)
    requires x <= 999
    ensures x / 100 < 10 && x == 100 * (x / 100) + 10 * (x / 10 % 10) + x % 10
  {
  }

  /** The three syllables of a number are the name that is read as that number, and there is no other. */
  lemma NameReads(num: nat, name: string)
    ensures num <= 999 && name == LastName(num) <==> ReadsAs(name, num)
  {
    hide Syllable, FirstDigit;
    if num <= 999 && name == LastName(num) {
      Digits(num);
      var a, b, c := Syllable(num / 100), Syllable(num / 10 % 10), Syllable(num % 10);
      assert name == a + (b + c) && c + "" == c;
      DigitRead(num / 100, b + c);
      DigitRead(num / 10 % 10, c);
      DigitRead(num % 10, "");
    }
    if ReadsAs(name, num) {
      var x, y := FirstDigit(name), FirstDigit(FirstDigit(name).rest);
      DigitWritten(name);
      DigitWritten(x.rest);
      DigitWritten(y.rest);
      Parts(x.value, y.value, FirstDigit(y.rest).value);
    }
  }

  lemma ReadLetters(name: string, num: nat)
    requires ReadsAs(name, num)
    ensures num <= 999 && Letters(name)
  {
    hide LastName, ReadsAs;
    NameReads(num, name);
  }

  lemma Parts(a: nat, b: nat, c: nat)
    requires a < 10 && b < 10 && c < 10
    ensures var n := 100 * a + 10 * b + c; n <= 999 && n / 100 == a && n / 10 % 10 == b && n % 10 == c
  {
    Divided(a, 10 * b + c, 100);
    Divided(10 * a + b, c, 10);
    Divided(a, b, 10);
  }

  lemma Divided(q: nat, r: nat, d: nat)
    requires r < d && (d == 10 || d == 100)
    ensures (d * q + r) / d == q && (d * q + r) % d == r
  {
  }

  /** The first 1000 customers of a district have different last names. */
  lemma LastNamesDiffer(x: nat, y: nat)
    requires x <= 999 && y <= 999 && LastName(x) == LastName(y)
    ensures x == y
  {
    hide LastName;
    NameReads(x, LastName(x));
    NameReads(y, LastName(y));
  }
}
