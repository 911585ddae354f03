/**
 * Sorting a sequence by a string key, as `Array.prototype.sort` does with a `localeCompare`
 * comparator: a stable sort, here over code-unit lexicographic order.
 */
module Sorting {
  /** Lexicographic order on code units: a prefix comes first. */
  predicate StrLe(a: string, b: string)
    decreases |a|
  {
    a == [] || (b != [] && (a[0] < b[0] || (a[0] == b[0] && StrLe(a[1..], b[1..]))))
  }

  lemma {:induction false} StrLeTotal(a: string, b: string)
    ensures StrLe(a, b) || StrLe(b, a)
    decreases |a|
  {
    if a != [] && b != [] && a[0] == b[0] {
      StrLeTotal(a[1..], b[1..]);
    }
  }

  lemma {:induction false} StrLeTransitive(a: string, b: string, c: string)
    requires StrLe(a, b) && StrLe(b, c)
    ensures StrLe(a, c)
    decreases |a|
  {
    if a != [] && b != [] && c != [] && a[0] == b[0] && b[0] == c[0] {
      StrLeTransitive(a[1..], b[1..], c[1..]);
    }
  }

  lemma {:induction false} StrLeAntisymmetric(a: string, b: string)
    requires StrLe(a, b) && StrLe(b, a)
    ensures a == b
    decreases |a|
  {
    if a != [] {
      StrLeAntisymmetric(a[1..], b[1..]);
      assert a == [a[0]] + a[1..] && b == [b[0]] + b[1..];
    }
  }

  predicate SortedBy<T>(xs: seq<T>, key: T -> string) {
    forall i, j :: 0 <= i < j < |xs| ==> StrLe(key(xs[i]), key(xs[j]))
  }

  /** Inserts `x` into `xs` after every element whose key is not greater than its own. */
  function InsertBy<T>(x: T, xs: seq<T>, key: T -> string): (r: seq<T>)
    ensures multiset(r) == multiset(xs) + multiset{x}
    ensures |r| == |xs| + 1
    decreases |xs|
  {
    if xs == [] then [x]
    else if StrLe(key(xs[0]), key(x)) then
      assert xs == [xs[0]] + xs[1..];
      [xs[0]] + InsertBy(x, xs[1..], key)
    else
      [x] + xs
  }

  lemma InMultisetAt<T>(y: T, xs: seq<T>) returns (m: nat)
    requires y in multiset(xs)
    ensures m < |xs| && xs[m] == y
  {
    assert y in xs;
    m :| 0 <= m < |xs| && xs[m] == y;
  }

  lemma {:induction false} InsertBySorted<T>(x: T, xs: seq<T>, key: T -> string)
    requires SortedBy(xs, key)
    ensures SortedBy(InsertBy(x, xs, key), key)
    decreases |xs|
  {
    if xs != [] {
      if StrLe(key(xs[0]), key(x)) {
        InsertBySorted(x, xs[1..], key);
        HeadBeforeInserted(x, xs, key);
        ConsSorted(xs[0], InsertBy(x, xs[1..], key), key);
      } else {
        StrLeTotal(key(xs[0]), key(x));
        forall j | 0 <= j < |xs| ensures StrLe(key(x), key(xs[j])) {
          if j > 0 {
            StrLeTransitive(key(x), key(xs[0]), key(xs[j]));
          }
        }
        ConsSorted(x, xs, key);
      }
    }
  }

  /** The head of a sorted list is not above anything inserted behind it. */
  lemma HeadBeforeInserted<T>(x: T, xs: seq<T>, key: T -> string)
    requires SortedBy(xs, key) && xs != [] && StrLe(key(xs[0]), key(x))
    ensures forall k :: 0 <= k < |InsertBy(x, xs[1..], key)| ==> StrLe(key(xs[0]), key(InsertBy(x, xs[1..], key)[k]))
  {
    var rest := InsertBy(x, xs[1..], key);
    forall k | 0 <= k < |rest| ensures StrLe(key(xs[0]), key(rest[k])) {
      assert rest[k] in multiset(rest);
      if rest[k] != x {
        var m := InMultisetAt(rest[k], xs[1..]);
        assert xs[m + 1] == rest[k];
      }
    }
  }

  /** Putting an element in front of a sorted list whose keys it does not exceed keeps it sorted. */
  lemma ConsSorted<T>(y: T, ys: seq<T>, key: T -> string)
    requires SortedBy(ys, key)
    requires forall k :: 0 <= k < |ys| ==> StrLe(key(y), key(ys[k]))
    ensures SortedBy([y] + ys, key)
  {
    var r := [y] + ys;
    forall i, j | 0 <= i < j < |r| ensures StrLe(key(r[i]), key(r[j])) {
      assert r[j] == ys[j - 1];
      if i > 0 { assert r[i] == ys[i - 1]; }
    }
  }

  /** A stable sort by key: sorts the prefix, then inserts the last element after its equals. */
  function SortBy<T>(xs: seq<T>, key: T -> string): (r: seq<T>)
    ensures SortedBy(r, key)
    ensures multiset(r) == multiset(xs)
    ensures |r| == |xs|
    decreases |xs|
  {
    if xs == [] then []
    else
      var sorted := SortBy(xs[..|xs| - 1], key);
      assert xs == xs[..|xs| - 1] + [xs[|xs| - 1]];
      InsertBySorted(xs[|xs| - 1], sorted, key);
      InsertBy(xs[|xs| - 1], sorted, key)
  }
}
