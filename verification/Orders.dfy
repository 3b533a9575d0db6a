/** Strict orders and the lists they sort. A set that an order is total on has one ascending listing,
    and whatever sorts its members gives that listing. The two orders of texts that the components
    compare with are defined here too: by code points, and by UTF-16 code units. */
module Orders {

  ghost predicate StrictOrder<T(!new)>(less: (T, T) -> bool) {
    && (forall x :: !less(x, x))
    && (forall x, y, z :: less(x, y) && less(y, z) ==> less(x, z))
  }

  /** Any two different members of `s` are comparable. */
  ghost predicate TotalOn<T(!new)>(less: (T, T) -> bool, s: set<T>) {
    forall x, y :: x in s && y in s && x != y ==> less(x, y) || less(y, x)
  }

  predicate Ascending<T>(less: (T, T) -> bool, s: seq<T>) {
    forall i, j :: 0 <= i < j < |s| ==> less(s[i], s[j])
  }

  predicate Distinct<T(==)>(s: seq<T>) {
    forall i, j :: 0 <= i < j < |s| ==> s[i] != s[j]
  }

  function Members<T>(s: seq<T>): set<T> {
    set x | x in s
  }

  /** An ascending list is determined by its members. */
  lemma {:induction false} AscendingUnique<T(!new)>(less: (T, T) -> bool, a: seq<T>, b: seq<T>)
    requires StrictOrder(less) && Ascending(less, a) && Ascending(less, b)
    requires Members(a) == Members(b)
    ensures a == b
  {
    if a == [] {
      HeadIsMember(b);
    } else {
      assert a[0] in Members(b);
      assert b[0] in Members(a);
      var i :| 0 <= i < |b| && b[i] == a[0];
      var j :| 0 <= j < |a| && a[j] == b[0];
      assert a[0] == b[0];
      forall x ensures x in Members(a[1..]) <==> x in Members(b[1..]) {
        assert x in Members(a[1..]) <==> x in Members(a) && x != a[0];
        assert x in Members(b[1..]) <==> x in Members(b) && x != b[0];
      }
      AscendingUnique(less, a[1..], b[1..]);
      assert a == [a[0]] + a[1..] && b == [b[0]] + b[1..];
    }
  }

  lemma HeadIsMember<T>(a: seq<T>)
    ensures a != [] ==> Members(a) != {}
  {
    if a != [] {
      assert a[0] in Members(a);
    }
  }

  /** Insertion into an ascending list; equal members are kept side by side. */
  function Insert<T>(less: (T, T) -> bool, x: T, s: seq<T>): (r: seq<T>)
    ensures multiset(r) == multiset(s) + multiset{x}
    ensures |r| == |s| + 1
  {
    if s == [] then [x]
    else if less(x, s[0]) then [x] + s
    else
      assert s == [s[0]] + s[1..];
      [s[0]] + Insert(less, x, s[1..])
  }

  function Sort<T>(less: (T, T) -> bool, s: seq<T>): (r: seq<T>)
    ensures multiset(r) == multiset(s)
    ensures |r| == |s|
  {
    if s == [] then []
    else
      assert s == [s[0]] + s[1..];
      Insert(less, s[0], Sort(less, s[1..]))
  }

  lemma MultisetMembers<T>(a: seq<T>, b: seq<T>)
    requires multiset(a) == multiset(b)
    ensures Members(a) == Members(b)
  {
    forall x ensures x in Members(a) <==> x in Members(b) {
      assert x in a <==> x in multiset(a);
      assert x in b <==> x in multiset(b);
    }
  }

  /** Two orders of the same list, each without one occurrence of the last item of the first. */
  lemma WithoutLast<T>(a: seq<T>, b: seq<T>) returns (i: nat)
    requires multiset(a) == multiset(b) && a != []
    ensures i < |b| && b[i] == a[|a| - 1]
    ensures multiset(a[..|a| - 1]) == multiset(b[..i] + b[i + 1..])
  {
    var n := |a| - 1;
    assert a[n] in multiset(b);
    i :| 0 <= i < |b| && b[i] == a[n];
    assert a == a[..n] + [a[n]];
    assert b == b[..i] + [b[i]] + b[i + 1..];
    calc {
      multiset(a[..n]);
      multiset(a) - multiset{a[n]};
      multiset(b[..i]) + multiset{b[i]} + multiset(b[i + 1..]) - multiset{b[i]};
      multiset(b[..i]) + multiset(b[i + 1..]);
    }
  }

  predicate DistinctKeys<T, K(==)>(key: T -> K, s: seq<T>) {
    forall i, j :: 0 <= i < j < |s| ==> key(s[i]) != key(s[j])
  }

  /** Reordering a list keeps its keys distinct. */
  lemma PermutationKeepsKeys<T, K>(key: T -> K, a: seq<T>, b: seq<T>)
    requires DistinctKeys(key, a) && multiset(a) == multiset(b)
    ensures DistinctKeys(key, b)
  {
    forall i, j | 0 <= i < j < |b| ensures key(b[i]) != key(b[j]) {
      assert b[i] in multiset(a) && b[j] in multiset(a);
      var x :| 0 <= x < |a| && a[x] == b[i];
      var y :| 0 <= y < |a| && a[y] == b[j];
      TwiceInMultiset(b, i, j);
      OnceInMultiset(key, a, x);
    }
  }

  lemma TwiceInMultiset<T>(b: seq<T>, i: nat, j: nat)
    requires i < j < |b|
    ensures b[i] == b[j] ==> multiset(b)[b[i]] >= 2
  {
    assert b == b[..i] + [b[i]] + b[i + 1..j] + [b[j]] + b[j + 1..];
  }

  lemma OnceInMultiset<T, K>(key: T -> K, a: seq<T>, x: nat)
    requires DistinctKeys(key, a) && x < |a|
    ensures multiset(a)[a[x]] == 1
  {
    assert a == a[..x] + [a[x]] + a[x + 1..];
    assert a[x] !in a[..x] && a[x] !in a[x + 1..];
  }

  lemma {:induction false} InsertAscending<T(!new)>(less: (T, T) -> bool, x: T, s: seq<T>)
    requires StrictOrder(less) && Ascending(less, s) && x !in s
    requires TotalOn(less, Members(s) + {x})
    ensures Ascending(less, Insert(less, x, s))
  {
    if s == [] {
    } else if less(x, s[0]) {
    } else {
      assert s[0] in Members(s) + {x} && s[0] != x;
      assert Members(s[1..]) <= Members(s);
      InsertAscending(less, x, s[1..]);
      var r := Insert(less, x, s[1..]);
      forall j | 0 <= j < |r| ensures less(s[0], r[j]) {
        assert r[j] in multiset(r);
        assert r[j] == x || r[j] in s[1..];
      }
    }
  }

  /** Items that compare neither way form classes that the order ranks. */
  ghost predicate WeakOrder<T(!new)>(less: (T, T) -> bool) {
    StrictOrder(less) && forall x, y, z :: less(x, z) ==> less(x, y) || less(y, z)
  }

  predicate NeverReversed<T>(less: (T, T) -> bool, s: seq<T>) {
    forall i, j :: 0 <= i < j < |s| ==> !less(s[j], s[i])
  }

  lemma {:induction false} InsertNeverReverses<T(!new)>(less: (T, T) -> bool, x: T, s: seq<T>)
    requires WeakOrder(less) && NeverReversed(less, s)
    ensures NeverReversed(less, Insert(less, x, s))
  {
    if s == [] {
    } else if less(x, s[0]) {
    } else {
      InsertNeverReverses(less, x, s[1..]);
      var r := Insert(less, x, s[1..]);
      forall j | 0 <= j < |r| ensures !less(r[j], s[0]) {
        assert r[j] in multiset(r);
        assert r[j] == x || r[j] in s[1..];
      }
    }
  }

  lemma {:induction false} SortNeverReverses<T(!new)>(less: (T, T) -> bool, s: seq<T>)
    requires WeakOrder(less)
    ensures NeverReversed(less, Sort(less, s))
  {
    if s != [] {
      SortNeverReverses(less, s[1..]);
      InsertNeverReverses(less, s[0], Sort(less, s[1..]));
    }
  }

  lemma {:induction false} SortAscending<T(!new)>(less: (T, T) -> bool, s: seq<T>)
    requires StrictOrder(less) && Distinct(s) && TotalOn(less, Members(s))
    ensures Ascending(less, Sort(less, s)) && Members(Sort(less, s)) == Members(s)
  {
    if s != [] {
      assert Members(s[1..]) <= Members(s);
      SortAscending(less, s[1..]);
      var rest := Sort(less, s[1..]);
      assert s[0] !in rest by { assert s[0] !in s[1..]; assert s[0] !in multiset(rest); }
      assert Members(rest) + {s[0]} == Members(s);
      InsertAscending(less, s[0], rest);
    }
    MultisetMembers(Sort(less, s), s);
  }

  /** The ascending listing of a set: the canonical result of sorting it in any starting order. */
  ghost function Listed<T(!new)>(less: (T, T) -> bool, s: set<T>): (r: seq<T>)
    requires StrictOrder(less) && TotalOn(less, s)
    ensures Ascending(less, r) && Members(r) == s && |r| == |s|
  {
    if s == {} then []
    else
      var x :| x in s;
      var rest := Listed(less, s - {x});
      assert x !in rest by { assert x !in Members(rest); }
      assert Members(rest) + {x} == s;
      InsertAscending(less, x, rest);
      MultisetMembers(Insert(less, x, rest), rest + [x]);
      Insert(less, x, rest)
  }

  lemma SortIsListed<T(!new)>(less: (T, T) -> bool, s: seq<T>)
    requires StrictOrder(less) && Distinct(s) && TotalOn(less, Members(s))
    ensures Sort(less, s) == Listed(less, Members(s))
  {
    SortAscending(less, s);
    AscendingUnique(less, Sort(less, s), Listed(less, Members(s)));
  }

  lemma AscendingDistinct<T(!new)>(less: (T, T) -> bool, s: seq<T>)
    requires StrictOrder(less) && Ascending(less, s)
    ensures Distinct(s)
  {
    forall i, j | 0 <= i < j < |s| ensures s[i] != s[j] {
      assert less(s[i], s[j]);
    }
  }

  /** Text comparison: code by code, a proper prefix first. */
  predicate TextLess(a: string, b: string) {
    b != [] && (a == [] || a[0] < b[0] || (a[0] == b[0] && TextLess(a[1..], b[1..])))
  }

  /** The texts agree on their first `i` characters, and there the first ends or has the lesser one. */
  predicate PartAt(a: string, b: string, i: nat) {
    i <= |a| && i < |b| && a[..i] == b[..i] && (i == |a| || a[i] < b[i])
  }

  lemma {:induction false} TextOrderIs(a: string, b: string)
    ensures TextLess(a, b) <==> exists i: nat :: PartAt(a, b, i)
  {
    if a != [] && b != [] && a[0] == b[0] {
      TextOrderIs(a[1..], b[1..]);
      if i: nat :| PartAt(a[1..], b[1..], i) {
        assert a[..i + 1] == [a[0]] + a[1..][..i] && b[..i + 1] == [b[0]] + b[1..][..i];
        assert PartAt(a, b, i + 1);
      }
      if j: nat :| PartAt(a, b, j) {
        assert j > 0;
        assert a[1..][..j - 1] == a[..j][1..] && b[1..][..j - 1] == b[..j][1..];
        assert PartAt(a[1..], b[1..], j - 1);
      }
    } else if b != [] && (a == [] || a[0] < b[0]) {
      assert PartAt(a, b, 0);
    } else {
      forall i: nat | 0 < i <= |a| && i < |b| ensures a[..i] != b[..i] {
        assert a[0] == a[..i][0] && b[0] == b[..i][0];
      }
    }
  }

  lemma {:induction false} TextTransitive(a: string, b: string, c: string)
    requires TextLess(a, b) && TextLess(b, c)
    ensures TextLess(a, c)
  {
    if a != [] && a[0] == b[0] && b[0] == c[0] {
      TextTransitive(a[1..], b[1..], c[1..]);
    }
  }

  lemma {:induction false} TextIrreflexive(a: string)
    ensures !TextLess(a, a)
  {
    if a != [] {
      TextIrreflexive(a[1..]);
    }
  }

  lemma {:induction false} TextComparable(a: string, b: string)
    requires a != b
    ensures TextLess(a, b) || TextLess(b, a)
  {
    if a != [] && b != [] && a[0] == b[0] {
      assert a == [a[0]] + a[1..] && b == [b[0]] + b[1..];
      TextComparable(a[1..], b[1..]);
    }
  }

  lemma TextIsTotalOrder(s: set<string>)
    ensures StrictOrder(TextLess) && TotalOn(TextLess, s)
  {
    forall x: string ensures !TextLess(x, x) { TextIrreflexive(x); }
    forall x: string, y: string, z: string | TextLess(x, y) && TextLess(y, z) ensures TextLess(x, z) {
      TextTransitive(x, y, z);
    }
    forall x: string, y: string | x != y ensures TextLess(x, y) || TextLess(y, x) { TextComparable(x, y); }
  }

  method AnyMember<T(==)>(s: set<T>) returns (x: T)
    requires s != {}
    ensures x in s
  {
    x :| x in s;
  }

  /** The members of a set, sorted. */
  method SortedSet<T(==, !new)>(less: (T, T) -> bool, s: set<T>) returns (keys: seq<T>)
    requires StrictOrder(less) && TotalOn(less, s)
    ensures Ascending(less, keys) && Members(keys) == s
  {
    keys := [];
    var left := s;
    while left != {}
      invariant left <= s && Members(keys) == s - left && Ascending(less, keys)
      decreases left
    {
      var k :| k in left;
      assert k !in keys by { assert k !in Members(keys); }
      InsertAscending(less, k, keys);
      MultisetMembers(Insert(less, k, keys), keys + [k]);
      assert Members(keys + [k]) == Members(keys) + {k};
      keys := Insert(less, k, keys);
      left := left - {k};
    }
  }

  /** A set of texts sorted. */
  method SortedText(s: set<string>) returns (keys: seq<string>)
    ensures Ascending(TextLess, keys) && Members(keys) == s
  {
    TextIsTotalOrder(s);
    keys := SortedSet(TextLess, s);
  }

  /** Texts in ascending order are the listing of their set. */
  lemma SortedIsListed(keys: seq<string>, s: set<string>)
    requires Ascending(TextLess, keys) && Members(keys) == s
    ensures StrictOrder(TextLess) && TotalOn(TextLess, s) && keys == Listed(TextLess, s)
  {
    TextIsTotalOrder(s);
    AscendingUnique(TextLess, keys, Listed(TextLess, s));
  }

  // Text comparison by UTF-16 code units.

  /** A code unit as a character, in the same order and with the surrogates moved up. */
  function Unit(u: nat): char
    requires u < 0x1_0000
  {
    if u < 0xD800 then u as char else (u + 0x800) as char
  }

  function UnitsOf(c: char): string {
    var n := c as int;
    if n < 0x1_0000 then [Unit(n)]
    else [Unit(0xD800 + (n - 0x1_0000) / 0x400), Unit(0xDC00 + (n - 0x1_0000) % 0x400)]
  }

  function UnitText(s: string): string {
    if s == "" then "" else UnitsOf(s[0]) + UnitText(s[1..])
  }

  predicate UnitLess(a: string, b: string) { TextLess(UnitText(a), UnitText(b)) }

  /** One unit below U+10000, a surrogate pair that adds up to the code above; units keep their order. */
  lemma UnitsSay(c: char)
    ensures c as int < 0x1_0000 ==> UnitsOf(c) == [Unit(c as int)]
    ensures c as int >= 0x1_0000 ==>
      exists high, low :: 0 <= high < 0x400 && 0 <= low < 0x400 && IsPair(c, high, low)
    ensures forall u, v :: 0 <= u < v < 0x1_0000 ==> Unit(u) < Unit(v)
  {
    if c as int >= 0x1_0000 {
      var n := c as int - 0x1_0000;
      assert IsPair(c, n / 0x400, n % 0x400);
    }
  }

  predicate IsPair(c: char, high: nat, low: nat)
    requires high < 0x400 && low < 0x400
  {
    UnitsOf(c) == [Unit(0xD800 + high), Unit(0xDC00 + low)] && c as int == 0x1_0000 + 0x400 * high + low
  }

  lemma UnitsAreInjective(c: char, d: char)
    ensures UnitsOf(c)[0] == UnitsOf(d)[0] ==> |UnitsOf(c)| == |UnitsOf(d)|
    ensures UnitsOf(c) == UnitsOf(d) ==> c == d
  {
    var m, n := c as int - 0x1_0000, d as int - 0x1_0000;
    if m >= 0 && n >= 0 && UnitsOf(c) == UnitsOf(d) {
      assert UnitsOf(c)[1] == UnitsOf(d)[1];
      assert m == 0x400 * (m / 0x400) + m % 0x400 && n == 0x400 * (n / 0x400) + n % 0x400;
    }
  }

  lemma {:induction false} UnitTextIsInjective(a: string, b: string)
    requires UnitText(a) == UnitText(b)
    ensures a == b
  {
    hide UnitsOf;
    if a != "" && b != "" {
      SomeUnits(a[0]);
      SomeUnits(b[0]);
      UnitsAreInjective(a[0], b[0]);
      var x, y := UnitsOf(a[0]), UnitsOf(b[0]);
      assert UnitText(a)[0] == x[0] && UnitText(b)[0] == y[0];
      assert x == UnitText(a)[..|x|] && y == UnitText(b)[..|y|];
      assert UnitText(a[1..]) == UnitText(a)[|x|..] && UnitText(b[1..]) == UnitText(b)[|y|..];
      UnitTextIsInjective(a[1..], b[1..]);
      assert a == [a[0]] + a[1..] && b == [b[0]] + b[1..];
    } else if a != "" {
      SomeUnits(a[0]);
    } else if b != "" {
      SomeUnits(b[0]);
    }
  }

  lemma SomeUnits(c: char)
    ensures 1 <= |UnitsOf(c)| <= 2
  {
  }

  lemma UnitIrreflexive(a: string)
    ensures !UnitLess(a, a)
  {
    TextIrreflexive(UnitText(a));
  }

  lemma UnitTransitive(a: string, b: string, c: string)
    requires UnitLess(a, b) && UnitLess(b, c)
    ensures UnitLess(a, c)
  {
    TextTransitive(UnitText(a), UnitText(b), UnitText(c));
  }

  lemma UnitComparable(a: string, b: string)
    requires a != b
    ensures UnitLess(a, b) || UnitLess(b, a)
  {
    if UnitText(a) == UnitText(b) {
      UnitTextIsInjective(a, b);
    } else {
      TextComparable(UnitText(a), UnitText(b));
    }
  }

  lemma UnitOrderIsTotal(s: set<string>)
    ensures StrictOrder(UnitLess) && TotalOn(UnitLess, s)
  {
    hide UnitLess;
    forall a ensures !UnitLess(a, a) { UnitIrreflexive(a); }
    forall a, b, c | UnitLess(a, b) && UnitLess(b, c) ensures UnitLess(a, c) { UnitTransitive(a, b, c); }
    forall a: string, b: string | a != b ensures UnitLess(a, b) || UnitLess(b, a) { UnitComparable(a, b); }
  }

  /** The two orders of texts part above U+FFFF: a surrogate pair comes before a unit it exceeds as a code. */
  lemma UnitOrderIsNotTextOrder()
    ensures TextLess("\U{FF41}", "\U{20BB7}") && UnitLess("\U{20BB7}", "\U{FF41}")
  {
    var low, high := "\U{20BB7}", "\U{FF41}";
    assert UnitText(low) == UnitsOf(low[0]) + UnitText(low[1..]);
    assert UnitText(high) == UnitsOf(high[0]) + UnitText(high[1..]);
    assert UnitText(low)[0] == Unit(0xD842) && UnitText(high)[0] == Unit(0xFF41);
  }
}
