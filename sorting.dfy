/** Python's `sorted(xs, key=..., reverse=...)`: a stable sort by a key, where
    `reverse=True` orders by descending key and still keeps equal keys in input order. */
module Sorting {
  import opened Options

  /** The keys the exporter sorts by: titles (compared code point by code point),
      counts and creation times, and parsed instants where an unparsable value
      stands below every instant (`datetime.min`). */
  datatype Key = Text(s: string) | Number(n: int) | Instant(t: Option<int>)

  /** Python's `a <= b` on strings. */
  predicate StrLe(a: string, b: string) {
    a == [] || (b != [] && (a[0] < b[0] || (a[0] == b[0] && StrLe(a[1..], b[1..]))))
  }

  function Rank(k: Key): nat {
    match k
    case Text(_) => 0
    case Number(_) => 1
    case Instant(_) => 2
  }

  predicate KeyLe(a: Key, b: Key) {
    if Rank(a) != Rank(b) then Rank(a) < Rank(b)
    else match a
      case Text(s) => StrLe(s, b.s)
      case Number(n) => n <= b.n
      case Instant(t) => t.None? || (b.t.Some? && t.value <= b.t.value)
  }

  /** `x` may come before `y` in the output. */
  predicate Before(x: Key, y: Key, desc: bool) {
    if desc then KeyLe(y, x) else KeyLe(x, y)
  }

  lemma {:induction false} StrLeTotal(a: string, b: string)
    ensures StrLe(a, b) || StrLe(b, a)
    ensures StrLe(a, b) && StrLe(b, a) ==> a == b
  {
    if a != [] && b != [] && a[0] == b[0] {
      StrLeTotal(a[1..], b[1..]);
      assert a == [a[0]] + a[1..] && b == [b[0]] + b[1..];
    }
  }

  lemma {:induction false} StrLeTransitive(a: string, b: string, c: string)
    requires StrLe(a, b) && StrLe(b, c)
    ensures StrLe(a, c)
  {
    if a != [] && b != [] && c != [] && a[0] == b[0] && b[0] == c[0] {
      StrLeTransitive(a[1..], b[1..], c[1..]);
    }
  }

  lemma StrLeReflexive(a: string)
    ensures StrLe(a, a)
  {
    StrLeTotal(a, a);
  }

  /** `KeyLe` is a total order: total, antisymmetric and transitive. */
  lemma KeyLeTotalOrder(a: Key, b: Key, c: Key)
    ensures KeyLe(a, b) || KeyLe(b, a)
    ensures KeyLe(a, b) && KeyLe(b, a) ==> a == b
    ensures KeyLe(a, b) && KeyLe(b, c) ==> KeyLe(a, c)
  {
    if a.Text? && b.Text? {
      StrLeTotal(a.s, b.s);
      if c.Text? && KeyLe(a, b) && KeyLe(b, c) {
        StrLeTransitive(a.s, b.s, c.s);
      }
    }
  }

  lemma BeforeTotalOrder(x: Key, y: Key, z: Key, desc: bool)
    ensures Before(x, x, desc)
    ensures Before(x, y, desc) || Before(y, x, desc)
    ensures Before(x, y, desc) && Before(y, x, desc) ==> x == y
    ensures Before(x, y, desc) && Before(y, z, desc) ==> Before(x, z, desc)
  {
    KeyLeTotalOrder(x, x, x);
    KeyLeTotalOrder(x, y, z);
    KeyLeTotalOrder(z, y, x);
  }

  ghost predicate SortedBy<T>(s: seq<T>, key: T -> Key, desc: bool) {
    forall i, j :: 0 <= i < j < |s| ==> Before(key(s[i]), key(s[j]), desc)
  }

  /** The elements of `s` whose key is `k`, in order. */
  function WithKey<T>(s: seq<T>, key: T -> Key, k: Key): seq<T> {
    if s == [] then []
    else WithKey(s[..|s| - 1], key, k) + (if key(s[|s| - 1]) == k then [s[|s| - 1]] else [])
  }

  lemma {:induction false} WithKeyAppend<T>(s: seq<T>, t: seq<T>, key: T -> Key, k: Key)
    ensures WithKey(s + t, key, k) == WithKey(s, key, k) + WithKey(t, key, k)
    decreases |t|
  {
    if t != [] {
      assert (s + t)[..|s + t| - 1] == s + t[..|t| - 1];
      WithKeyAppend(s, t[..|t| - 1], key, k);
    } else {
      assert s + t == s;
    }
  }

  /** Put `x` after every element of `t` that may precede it. */
  function Insert<T>(t: seq<T>, x: T, key: T -> Key, desc: bool): seq<T> {
    if t == [] || Before(key(t[|t| - 1]), key(x), desc) then t + [x]
    else Insert(t[..|t| - 1], x, key, desc) + [t[|t| - 1]]
  }

  /** `sorted(s, key=key, reverse=desc)` */
  function SortBy<T>(s: seq<T>, key: T -> Key, desc: bool): seq<T> {
    if s == [] then [] else Insert(SortBy(s[..|s| - 1], key, desc), s[|s| - 1], key, desc)
  }

  lemma {:induction false} InsertPermutes<T>(t: seq<T>, x: T, key: T -> Key, desc: bool)
    ensures multiset(Insert(t, x, key, desc)) == multiset(t) + multiset{x}
    ensures |Insert(t, x, key, desc)| == |t| + 1
    decreases |t|
  {
    if !(t == [] || Before(key(t[|t| - 1]), key(x), desc)) {
      assert t == t[..|t| - 1] + [t[|t| - 1]];
      InsertPermutes(t[..|t| - 1], x, key, desc);
    }
  }

  lemma {:induction false} InsertSorted<T>(t: seq<T>, x: T, key: T -> Key, desc: bool)
    requires SortedBy(t, key, desc)
    ensures SortedBy(Insert(t, x, key, desc), key, desc)
    decreases |t|
  {
    var r := Insert(t, x, key, desc);
    if t == [] || Before(key(t[|t| - 1]), key(x), desc) {
      forall i, j | 0 <= i < j < |r| ensures Before(key(r[i]), key(r[j]), desc) {
        if j == |t| && i < |t| - 1 {
          BeforeTotalOrder(key(t[i]), key(t[|t| - 1]), key(x), desc);
        }
      }
    } else {
      var init, last := t[..|t| - 1], t[|t| - 1];
      InsertSorted(init, x, key, desc);
      InsertPermutes(init, x, key, desc);
      var r0 := Insert(init, x, key, desc);
      assert r == r0 + [last];
      BeforeTotalOrder(key(x), key(last), key(last), desc);
      forall i | 0 <= i < |r0| ensures Before(key(r0[i]), key(last), desc) {
        assert r0[i] in multiset(r0);
        if r0[i] != x {
          assert r0[i] in multiset(init);
          var m :| 0 <= m < |init| && init[m] == r0[i];
          assert Before(key(t[m]), key(t[|t| - 1]), desc);
        }
      }
    }
  }

  lemma OneWithKey<T>(x: T, key: T -> Key, k: Key)
    ensures WithKey([x], key, k) == if key(x) == k then [x] else []
  {
    assert [x][..0] == [];
  }

  lemma {:induction false} InsertStable<T>(t: seq<T>, x: T, key: T -> Key, desc: bool, k: Key)
    ensures WithKey(Insert(t, x, key, desc), key, k) == WithKey(t, key, k) + WithKey([x], key, k)
    decreases |t|
  {
    if t == [] || Before(key(t[|t| - 1]), key(x), desc) {
      WithKeyAppend(t, [x], key, k);
    } else {
      var init, last := t[..|t| - 1], t[|t| - 1];
      assert t == init + [last];
      InsertStable(init, x, key, desc, k);
      WithKeyAppend(Insert(init, x, key, desc), [last], key, k);
      WithKeyAppend(init, [last], key, k);
      OneWithKey(x, key, k);
      OneWithKey(last, key, k);
      BeforeTotalOrder(key(x), key(last), key(last), desc);
    }
  }

  /** The result is a permutation of the input, ordered by the key (descending
      when `desc`), and elements with equal keys keep their input order. */
  lemma {:induction false} SortByCorrect<T>(s: seq<T>, key: T -> Key, desc: bool)
    ensures var r := SortBy(s, key, desc);
      && multiset(r) == multiset(s)
      && SortedBy(r, key, desc)
      && forall k :: WithKey(r, key, k) == WithKey(s, key, k)
  {
    if s != [] {
      var init, last := s[..|s| - 1], s[|s| - 1];
      assert s == init + [last];
      SortByCorrect(init, key, desc);
      InsertPermutes(SortBy(init, key, desc), last, key, desc);
      InsertSorted(SortBy(init, key, desc), last, key, desc);
      forall k ensures WithKey(SortBy(s, key, desc), key, k) == WithKey(s, key, k) {
        InsertStable(SortBy(init, key, desc), last, key, desc, k);
        WithKeyAppend(init, [last], key, k);
      }
    }
  }

  lemma SortByLength<T>(s: seq<T>, key: T -> Key, desc: bool)
    ensures |SortBy(s, key, desc)| == |s|
  {
    SortByCorrect(s, key, desc);
    assert |multiset(SortBy(s, key, desc))| == |multiset(s)|;
  }
}
