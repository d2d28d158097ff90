/** The order Rust's `sort`, `BTreeMap` and `BTreeSet` use, and the stable sort built on it.

    A value is compared by its key, a sequence of integers. A string contributes its code
    points followed by the terminator `-1`, so comparing the concatenated keys of several
    fields is comparing the fields one after the other, as a derived `Ord` does. */
module Ordering {

  type Key = seq<int>

  predicate Le(a: Key, b: Key) {
    if a == [] then true
    else if b == [] then false
    else if a[0] != b[0] then a[0] < b[0]
    else Le(a[1..], b[1..])
  }

  lemma {:induction false} LeTotal(a: Key, b: Key)
    ensures Le(a, b) || Le(b, a)
  {
    if a != [] && b != [] && a[0] == b[0] { LeTotal(a[1..], b[1..]); }
  }

  lemma {:induction false} LeReflexive(a: Key)
    ensures Le(a, a)
  {
    LeTotal(a, a);
  }

  lemma {:induction false} LeAntisymmetric(a: Key, b: Key)
    requires Le(a, b) && Le(b, a)
    ensures a == b
  {
    if a != [] && b != [] {
      LeAntisymmetric(a[1..], b[1..]);
      assert a == [a[0]] + a[1..] && b == [b[0]] + b[1..];
    }
  }

  lemma {:induction false} LeTransitive(a: Key, b: Key, c: Key)
    requires Le(a, b) && Le(b, c)
    ensures Le(a, c)
  {
    if a != [] && b != [] && c != [] && a[0] == b[0] && b[0] == c[0] {
      LeTransitive(a[1..], b[1..], c[1..]);
    }
  }

  /** The key of one string field. */
  function StrKey(s: string): (k: Key)
    ensures |k| == |s| + 1 && k[|s|] == -1
    ensures forall i :: 0 <= i < |s| ==> k[i] == s[i] as int
  {
    seq(|s|, i requires 0 <= i < |s| => s[i] as int) + [-1]
  }

  lemma FirstTerminator(s: string, x: Key)
    ensures var k := StrKey(s) + x;
            && |k| > |s| && k[|s|] == -1 && x == k[|s| + 1..]
            && forall i :: 0 <= i < |s| ==> k[i] == s[i] as int
  {
  }

  /** Terminated fields can be read back off the front of a key. */
  lemma FieldInjective(s: string, t: string, x: Key, y: Key)
    requires StrKey(s) + x == StrKey(t) + y
    ensures s == t && x == y
  {
    hide StrKey;
    FirstTerminator(s, x);
    FirstTerminator(t, y);
    var k := StrKey(s) + x;
    assert |s| == |t|;
    forall i | 0 <= i < |s| ensures s[i] == t[i] { assert k[i] == s[i] as int; }
  }

  lemma FieldDistinguishes(s: string, t: string)
    requires StrKey(s) == StrKey(t)
    ensures s == t
  {
    assert StrKey(s) + [] == StrKey(t) + [];
    FieldInjective(s, t, [], []);
  }

  // ---------------------------------------------------------------- sorting

  ghost predicate Sorted<T>(xs: seq<T>, key: T -> Key) {
    forall i, j :: 0 <= i < j < |xs| ==> Le(key(xs[i]), key(xs[j]))
  }

  ghost predicate StrictlySorted<T>(xs: seq<T>, key: T -> Key) {
    forall i, j :: 0 <= i < j < |xs| ==> Le(key(xs[i]), key(xs[j])) && key(xs[i]) != key(xs[j])
  }

  ghost predicate DistinctKeys<T>(xs: seq<T>, key: T -> Key) {
    forall i, j :: 0 <= i < j < |xs| ==> key(xs[i]) != key(xs[j])
  }

  function Insert<T>(x: T, xs: seq<T>, key: T -> Key): seq<T> {
    if xs == [] then [x]
    else if Le(key(x), key(xs[0])) then [x] + xs
    else [xs[0]] + Insert(x, xs[1..], key)
  }

  /** Rust's `sort_by(|a, b| key(a).cmp(&key(b)))`: stable, so equal keys keep their order. */
  function Sort<T>(xs: seq<T>, key: T -> Key): seq<T> {
    if xs == [] then [] else Insert(xs[0], Sort(xs[1..], key), key)
  }

  lemma {:induction false} InsertSorted<T>(x: T, xs: seq<T>, key: T -> Key)
    requires Sorted(xs, key)
    ensures Sorted(Insert(x, xs, key), key)
    ensures multiset(Insert(x, xs, key)) == multiset([x]) + multiset(xs)
  {
    if xs != [] {
      assert xs == [xs[0]] + xs[1..];
      if Le(key(x), key(xs[0])) {
        forall j | 0 <= j < |xs| ensures Le(key(x), key(xs[j])) {
          if j > 0 { LeTransitive(key(x), key(xs[0]), key(xs[j])); }
        }
      } else {
        LeTotal(key(x), key(xs[0]));
        var rest := Insert(x, xs[1..], key);
        InsertSorted(x, xs[1..], key);
        forall j | 0 <= j < |rest| ensures Le(key(xs[0]), key(rest[j])) {
          assert rest[j] in multiset(rest);
          assert rest[j] == x || rest[j] in xs[1..];
        }
      }
    }
  }

  lemma {:induction false} SortSorts<T>(xs: seq<T>, key: T -> Key)
    ensures Sorted(Sort(xs, key), key)
    ensures multiset(Sort(xs, key)) == multiset(xs)
  {
    if xs != [] {
      SortSorts(xs[1..], key);
      InsertSorted(xs[0], Sort(xs[1..], key), key);
      assert xs == [xs[0]] + xs[1..];
    }
  }

  lemma SortKeepsElements<T>(xs: seq<T>, key: T -> Key)
    ensures |Sort(xs, key)| == |xs|
    ensures forall x :: x in Sort(xs, key) <==> x in xs
  {
    SortSorts(xs, key);
    assert |Sort(xs, key)| == |multiset(Sort(xs, key))| == |multiset(xs)| == |xs|;
    forall x ensures x in Sort(xs, key) <==> x in xs {
      assert x in Sort(xs, key) <==> x in multiset(Sort(xs, key));
      assert x in xs <==> x in multiset(xs);
    }
  }

  lemma SortMember<T>(xs: seq<T>, key: T -> Key, x: T)
    ensures x in Sort(xs, key) <==> x in xs
  {
    SortKeepsElements(xs, key);
  }

  /** Sorting a sorted sequence moves nothing: this needs the sort to be stable. */
  lemma {:induction false} SortOfSorted<T>(xs: seq<T>, key: T -> Key)
    requires Sorted(xs, key)
    ensures Sort(xs, key) == xs
  {
    if xs != [] {
      SortOfSorted(xs[1..], key);
      assert xs == [xs[0]] + xs[1..];
      if |xs| > 1 { assert Le(key(xs[0]), key(xs[1])); }
    }
  }

  lemma {:induction false} InsertStrict<T>(x: T, xs: seq<T>, key: T -> Key)
    requires StrictlySorted(xs, key) && forall y :: y in xs ==> key(y) != key(x)
    ensures StrictlySorted(Insert(x, xs, key), key)
  {
    StrictIsSorted(xs, key);
    InsertSorted(x, xs, key);
    if xs != [] && !Le(key(x), key(xs[0])) {
      var rest := Insert(x, xs[1..], key);
      InsertStrict(x, xs[1..], key);
      InsertSorted(x, xs[1..], key);
      forall j | 0 <= j < |rest| ensures key(xs[0]) != key(rest[j]) {
        assert rest[j] in multiset(rest);
        assert rest[j] == x || rest[j] in xs[1..];
        LeReflexive(key(x));
      }
    }
  }

  lemma {:induction false} SortedDistinctIsStrict<T>(xs: seq<T>, key: T -> Key)
    requires DistinctKeys(xs, key)
    ensures StrictlySorted(Sort(xs, key), key)
  {
    if xs != [] {
      SortedDistinctIsStrict(xs[1..], key);
      SortKeepsElements(xs[1..], key);
      forall y | y in Sort(xs[1..], key) ensures key(y) != key(xs[0]) {
        SortMember(xs[1..], key, y);
        var k :| 0 <= k < |xs[1..]| && xs[1..][k] == y;
        assert xs[k + 1] == y;
      }
      InsertStrict(xs[0], Sort(xs[1..], key), key);
    }
  }

  /** A strictly sorted sequence is determined by its set of elements. */
  lemma {:induction false} StrictlySortedUnique<T>(xs: seq<T>, ys: seq<T>, key: T -> Key)
    requires StrictlySorted(xs, key) && StrictlySorted(ys, key)
    requires forall x :: x in xs <==> x in ys
    ensures xs == ys
  {
    assert ys == [] || ys[0] in ys;
    if xs != [] {
      assert xs[0] in ys;
      assert ys[0] in xs;
      var i :| 0 <= i < |ys| && ys[i] == xs[0];
      var j :| 0 <= j < |xs| && xs[j] == ys[0];
      if i > 0 && j > 0 {
        LeAntisymmetric(key(xs[0]), key(ys[0]));
        assert false;
      }
      assert xs[0] == ys[0];
      forall x ensures x in xs[1..] <==> x in ys[1..] {
        if x in xs[1..] {
          assert x in ys;
          var k :| 0 <= k < |ys| && ys[k] == x;
          assert k > 0;
          assert ys[1..][k - 1] == x;
        }
        if x in ys[1..] {
          assert x in xs;
          var k :| 0 <= k < |xs| && xs[k] == x;
          assert k > 0;
          assert xs[1..][k - 1] == x;
        }
      }
      StrictlySortedUnique(xs[1..], ys[1..], key);
      assert xs == [xs[0]] + xs[1..] && ys == [ys[0]] + ys[1..];
    }
  }

  /** Two orderings of the same elements with distinct keys sort to the same sequence. */
  lemma SortIsCanonical<T>(xs: seq<T>, ys: seq<T>, key: T -> Key)
    requires DistinctKeys(xs, key) && DistinctKeys(ys, key)
    requires forall x :: x in xs <==> x in ys
    ensures Sort(xs, key) == Sort(ys, key)
  {
    SortKeepsElements(xs, key);
    SortKeepsElements(ys, key);
    SortedDistinctIsStrict(xs, key);
    SortedDistinctIsStrict(ys, key);
    StrictlySortedUnique(Sort(xs, key), Sort(ys, key), key);
  }

  // ---------------------------------------------------------------- what the orders are

  /** `a` is a proper beginning of `b`, or has the smaller character where they first differ. */
  predicate Before(a: string, b: string) {
    exists i :: 0 <= i < |b| && BeforeAt(a, b, i)
  }

  predicate BeforeAt(a: string, b: string, i: nat)
    requires i < |b|
  {
    i <= |a| && a[..i] == b[..i] && (i == |a| || a[i] < b[i])
  }

  /** The order of keys that start with a string is that of the strings, and then of what follows. */
  lemma {:induction false} FieldOrder(a: string, b: string, x: Key, y: Key)
    ensures Le(StrKey(a) + x, StrKey(b) + y) <==> if a == b then Le(x, y) else Before(a, b)
    decreases |a|
  {
    var k, l := StrKey(a) + x, StrKey(b) + y;
    FirstTerminator(a, x);
    FirstTerminator(b, y);
    if a == "" || b == "" || a[0] != b[0] {
      HeadDecides(a, b, x, y);
    } else {
      assert k[1..] == StrKey(a[1..]) + x && l[1..] == StrKey(b[1..]) + y;
      FieldOrder(a[1..], b[1..], x, y);
      assert a == [a[0]] + a[1..] && b == [b[0]] + b[1..];
      BeforeTail(a, b);
    }
  }

  lemma HeadDecides(a: string, b: string, x: Key, y: Key)
    requires a == "" || b == "" || a[0] != b[0]
    ensures Le(StrKey(a) + x, StrKey(b) + y) <==> if a == b then Le(x, y) else Before(a, b)
  {
    var k, l := StrKey(a) + x, StrKey(b) + y;
    FirstTerminator(a, x);
    FirstTerminator(b, y);
    if a == "" && b == "" {
      assert k[1..] == x && l[1..] == y;
    } else if b != "" && (a == "" || a[0] < b[0]) {
      assert BeforeAt(a, b, 0);
    } else {
      forall i | 0 <= i < |b| ensures !BeforeAt(a, b, i) {
        assert i > 0 && i <= |a| ==> a[..i][0] == a[0] && b[..i][0] == b[0];
      }
    }
  }

  lemma BeforeTail(a: string, b: string)
    requires a != "" && b != "" && a[0] == b[0]
    ensures Before(a, b) <==> Before(a[1..], b[1..])
  {
    if i :| 0 <= i < |b| && BeforeAt(a, b, i) {
      assert i > 0;
      assert a[..i] == [a[0]] + a[1..][..i - 1] && b[..i] == [b[0]] + b[1..][..i - 1];
      assert BeforeAt(a[1..], b[1..], i - 1) by { SameTail(a, b, i); }
    }
    if i :| 0 <= i < |b[1..]| && BeforeAt(a[1..], b[1..], i) {
      assert a[..i + 1] == [a[0]] + a[1..][..i] && b[..i + 1] == [b[0]] + b[1..][..i];
      assert BeforeAt(a, b, i + 1);
    }
  }

  lemma SameTail(a: string, b: string, i: nat)
    requires 0 < i <= |a| && i <= |b| && a[..i] == b[..i]
    ensures a[1..][..i - 1] == b[1..][..i - 1]
  {
    assert a[1..][..i - 1] == a[..i][1..] && b[1..][..i - 1] == b[..i][1..];
  }

  lemma StringOrder(a: string, b: string)
    ensures Le(StrKey(a), StrKey(b)) <==> a == b || Before(a, b)
  {
    FieldOrder(a, b, [], []);
    assert StrKey(a) + [] == StrKey(a) && StrKey(b) + [] == StrKey(b);
  }

  function Having<T>(xs: seq<T>, key: T -> Key, k: Key): seq<T> {
    if xs == [] then [] else (if key(xs[0]) == k then [xs[0]] else []) + Having(xs[1..], key, k)
  }

  lemma HavingCons<T>(x: T, xs: seq<T>, key: T -> Key, k: Key)
    ensures Having([x] + xs, key, k) == (if key(x) == k then [x] else []) + Having(xs, key, k)
  {
    assert ([x] + xs)[1..] == xs;
  }

  lemma {:induction false} InsertStable<T>(x: T, xs: seq<T>, key: T -> Key, k: Key)
    ensures Having(Insert(x, xs, key), key, k) == (if key(x) == k then [x] else []) + Having(xs, key, k)
  {
    if xs == [] {
      HavingCons(x, [], key, k);
      assert [x] + [] == [x];
    } else if Le(key(x), key(xs[0])) {
      HavingCons(x, xs, key, k);
    } else {
      LeReflexive(key(x));
      InsertStable(x, xs[1..], key, k);
      HavingCons(xs[0], Insert(x, xs[1..], key), key, k);
      HavingCons(xs[0], xs[1..], key, k);
      assert [xs[0]] + xs[1..] == xs;
      hide Having, Le;
      assert !(key(x) == k && key(xs[0]) == k);
    }
  }

  /** Elements with the same key keep their order. */
  lemma {:induction false} SortStable<T>(xs: seq<T>, key: T -> Key, k: Key)
    ensures Having(Sort(xs, key), key, k) == Having(xs, key, k)
  {
    if xs != [] {
      SortStable(xs[1..], key, k);
      InsertStable(xs[0], Sort(xs[1..], key), key, k);
    }
  }

  // ---------------------------------------------------------------- dedup

  /** Rust's `Vec::dedup`: drop an element equal to the one kept before it. */
  function Dedup<T(==)>(xs: seq<T>): seq<T> {
    if |xs| <= 1 then xs
    else if xs[0] == xs[1] then Dedup(xs[1..])
    else [xs[0]] + Dedup(xs[1..])
  }

  lemma {:induction false} DedupKeeps<T>(xs: seq<T>)
    ensures forall x :: x in Dedup(xs) <==> x in xs
    ensures |Dedup(xs)| <= |xs|
    ensures xs != [] ==> Dedup(xs) != [] && Dedup(xs)[0] == xs[0]
  {
    if |xs| > 1 {
      DedupKeeps(xs[1..]);
      assert xs == [xs[0]] + xs[1..];
      forall x ensures x in Dedup(xs) <==> x in xs {
        assert x in xs <==> x == xs[0] || x in xs[1..];
      }
    }
  }

  /** Deduplicating a sequence sorted by an injective key leaves it strictly sorted. */
  lemma {:induction false} DedupStrict<T>(xs: seq<T>, key: T -> Key)
    requires Sorted(xs, key)
    requires forall x, y :: x in xs && y in xs && key(x) == key(y) ==> x == y
    ensures StrictlySorted(Dedup(xs), key)
  {
    if |xs| > 1 {
      assert xs == [xs[0]] + xs[1..];
      DedupStrict(xs[1..], key);
      DedupKeeps(xs[1..]);
      var rest := Dedup(xs[1..]);
      if xs[0] != xs[1] {
        forall j | 0 <= j < |rest| ensures Le(key(xs[0]), key(rest[j])) && key(xs[0]) != key(rest[j]) {
          DedupMember(xs[1..], rest[j]);
          var i :| 0 <= i < |xs[1..]| && xs[1..][i] == rest[j];
          var k := i + 1;
          assert xs[k] == rest[j];

          if key(xs[0]) == key(xs[k]) {
            assert Le(key(xs[0]), key(xs[1]));
            if k > 1 { LeAntisymmetric(key(xs[0]), key(xs[1])); }
            assert false;
          }
        }
      }
    }
  }

  lemma DedupMember<T>(xs: seq<T>, x: T)
    ensures x in Dedup(xs) <==> x in xs
  {
    DedupKeeps(xs);
  }

  lemma {:induction false} DedupOfStrict<T>(xs: seq<T>, key: T -> Key)
    requires StrictlySorted(xs, key)
    ensures Dedup(xs) == xs
  {
    if |xs| > 1 {
      DedupOfStrict(xs[1..], key);
      assert key(xs[0]) != key(xs[1]);
      assert xs == [xs[0]] + xs[1..];
    }
  }

  lemma {:induction false} StrictIsSorted<T>(xs: seq<T>, key: T -> Key)
    requires StrictlySorted(xs, key)
    ensures Sorted(xs, key)
  {
  }

  // ---------------------------------------------------------------- ordered collections

  predicate IsLeast(m: string, s: set<string>) {
    m in s && forall x :: x in s ==> Le(StrKey(m), StrKey(x))
  }

  /** The iteration order of a `BTreeSet<&str>`. */
  function InOrder(s: set<string>): (xs: seq<string>)
    ensures forall x :: x in xs <==> x in s
    ensures StrictlySorted(xs, StrKey)
  {
    if s == {} then []
    else
      ExistsLeast(s);
      LeastUnique(s);
      var m :| IsLeast(m, s);
      var rest := InOrder(s - {m});
      LeastFirst(m, s, rest);
      [m] + rest
  }

  lemma LeastFirst(m: string, s: set<string>, rest: seq<string>)
    requires IsLeast(m, s)
    requires forall x :: x in rest <==> x in s - {m}
    requires StrictlySorted(rest, StrKey)
    ensures StrictlySorted([m] + rest, StrKey)
  {
    forall j | 0 <= j < |rest| ensures Le(StrKey(m), StrKey(rest[j])) && StrKey(m) != StrKey(rest[j]) {
      assert rest[j] in rest;
      if StrKey(m) == StrKey(rest[j]) { FieldDistinguishes(m, rest[j]); }
    }
  }

  lemma {:induction false} ExistsLeast(s: set<string>)
    requires s != {}
    ensures exists m :: IsLeast(m, s)
  {
    var y :| y in s;
    LeReflexive(StrKey(y));
    if s == {y} {
      assert IsLeast(y, s);
    } else {
      ExistsLeast(s - {y});
      var m :| IsLeast(m, s - {y});
      LeTotal(StrKey(m), StrKey(y));
      if Le(StrKey(m), StrKey(y)) {
        assert IsLeast(m, s);
      } else {
        forall x | x in s ensures Le(StrKey(y), StrKey(x)) {
          if x != y { LeTransitive(StrKey(y), StrKey(m), StrKey(x)); }
        }
        assert IsLeast(y, s);
      }
    }
  }

  lemma LeastUnique(s: set<string>)
    ensures forall a, b :: IsLeast(a, s) && IsLeast(b, s) ==> a == b
  {
    forall a, b | IsLeast(a, s) && IsLeast(b, s) ensures a == b {
      LeAntisymmetric(StrKey(a), StrKey(b));
      FieldDistinguishes(a, b);
    }
  }
}
