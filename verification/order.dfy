/** Python's ordering of `str` values and `list.sort(key=...)` on a string key. */
module Order {

  /** `a <= b` on Python strings: code-point lexicographic order, a prefix before its extensions. */
  predicate StrLe(a: string, b: string)
    decreases |a|
  {
    a == [] || (b != [] && (a[0] < b[0] || (a[0] == b[0] && StrLe(a[1..], b[1..]))))
  }

  lemma {:induction false} StrLeTotal(a: string, b: string)
    ensures StrLe(a, b) || StrLe(b, a)
    decreases |a|
  {
    if a != [] && b != [] && a[0] == b[0] {
      StrLeTotal(a[1..], b[1..]);
    }
  }

  lemma {:induction false} StrLeTrans(a: string, b: string, c: string)
    requires StrLe(a, b) && StrLe(b, c)
    ensures StrLe(a, c)
    decreases |a|
  {
    if a != [] && a[0] == b[0] && b[0] == c[0] {
      StrLeTrans(a[1..], b[1..], c[1..]);
    }
  }

  lemma {:induction false} StrLeAntisym(a: string, b: string)
    requires StrLe(a, b) && StrLe(b, a)
    ensures a == b
    decreases |a|
  {
    if a != [] {
      StrLeAntisym(a[1..], b[1..]);
      assert a == [a[0]] + a[1..];
      assert b == [b[0]] + b[1..];
    }
  }

  /** `xs` is in ascending order of `key`. */
  ghost predicate SortedBy<T>(xs: seq<T>, key: T -> string) {
    forall i, j :: 0 <= i < j < |xs| ==> StrLe(key(xs[i]), key(xs[j]))
  }

  /** Insert `x` before the first element whose key is not below its own. */
  function Insert<T(==)>(x: T, ys: seq<T>, key: T -> string): (r: seq<T>)
    requires SortedBy(ys, key)
    ensures SortedBy(r, key)
    ensures multiset(r) == multiset(ys) + multiset{x}
  {
    if ys == [] || StrLe(key(x), key(ys[0])) then
      InsertFront(x, ys, key);
      [x] + ys
    else
      var rest := Insert(x, ys[1..], key);
      StrLeTotal(key(x), key(ys[0]));
      assert ys == [ys[0]] + ys[1..];
      forall e | e in rest ensures StrLe(key(ys[0]), key(e)) {
        assert e in multiset(rest);
        if e != x {
          assert e in ys[1..];
        }
      }
      ConsSorted(ys[0], rest, key);
      [ys[0]] + rest
  }

  lemma InsertFront<T>(x: T, ys: seq<T>, key: T -> string)
    requires SortedBy(ys, key)
    requires ys == [] || StrLe(key(x), key(ys[0]))
    ensures SortedBy([x] + ys, key)
  {
    forall j | 0 <= j < |ys| ensures StrLe(key(x), key(ys[j])) {
      if j > 0 {
        StrLeTrans(key(x), key(ys[0]), key(ys[j]));
      }
    }
  }

  lemma ConsSorted<T>(y: T, rest: seq<T>, key: T -> string)
    requires SortedBy(rest, key)
    requires forall e | e in rest :: StrLe(key(y), key(e))
    ensures SortedBy([y] + rest, key)
  {
    forall i, j | 0 <= i < j < |rest| + 1 ensures StrLe(key(([y] + rest)[i]), key(([y] + rest)[j])) {
      if i == 0 {
        assert rest[j - 1] in rest;
      }
    }
  }

  /** `sorted(xs, key=key)`, as an insertion sort. The contract states order and permutation;
      when no two elements share a key that fixes the result (`SortedUnique`). */
  function SortBy<T(==)>(xs: seq<T>, key: T -> string): (r: seq<T>)
    ensures SortedBy(r, key)
    ensures multiset(r) == multiset(xs)
  {
    if xs == [] then []
    else
      assert xs == [xs[0]] + xs[1..];
      Insert(xs[0], SortBy(xs[1..], key), key)
  }

  /** No two distinct elements of `xs` share a key. */
  ghost predicate KeysInjective<T>(xs: seq<T>, key: T -> string) {
    forall a, b :: a in xs && b in xs && key(a) == key(b) ==> a == b
  }

  lemma SortedTail<T>(xs: seq<T>, key: T -> string)
    requires xs != [] && SortedBy(xs, key)
    ensures SortedBy(xs[1..], key)
  {
    forall i, j | 0 <= i < j < |xs| - 1 ensures StrLe(key(xs[1..][i]), key(xs[1..][j])) {
      assert xs[1..][i] == xs[i + 1] && xs[1..][j] == xs[j + 1];
    }
  }

  /** The head of a sorted sequence has the least key of all its elements. */
  lemma HeadLeast<T>(xs: seq<T>, y: T, key: T -> string)
    requires xs != [] && SortedBy(xs, key) && y in multiset(xs)
    ensures StrLe(key(xs[0]), key(y))
  {
    var i :| 0 <= i < |xs| && xs[i] == y;
    if i == 0 {
      StrLeTotal(key(y), key(y));
    }
  }

  /** Two sorted arrangements of the same elements are the same sequence once no two elements share a key. */
  lemma {:induction false} SortedUnique<T>(xs: seq<T>, ys: seq<T>, key: T -> string)
    requires SortedBy(xs, key) && SortedBy(ys, key)
    requires multiset(xs) == multiset(ys)
    requires KeysInjective(xs, key)
    ensures xs == ys
    decreases |xs|
  {
    if xs != [] {
      assert |multiset(ys)| == |multiset(xs)|;
      HeadLeast(xs, ys[0], key);
      HeadLeast(ys, xs[0], key);
      StrLeAntisym(key(xs[0]), key(ys[0]));
      assert ys[0] in multiset(xs);
      assert xs[0] == ys[0];
      assert xs == [xs[0]] + xs[1..];
      assert ys == [ys[0]] + ys[1..];
      assert multiset(xs) == multiset{xs[0]} + multiset(xs[1..]);
      assert multiset(ys) == multiset{ys[0]} + multiset(ys[1..]);
      assert multiset(xs[1..]) == multiset(xs) - multiset{xs[0]};
      assert multiset(ys[1..]) == multiset(ys) - multiset{ys[0]};
      assert KeysInjective(xs[1..], key) by {
        forall a, b | a in xs[1..] && b in xs[1..] && key(a) == key(b) ensures a == b {
          assert a in xs && b in xs;
        }
      }
      SortedTail(xs, key);
      SortedTail(ys, key);
      SortedUnique(xs[1..], ys[1..], key);
    }
  }

  /** Sorting forgets the input order when no two elements share a key. */
  lemma SortForgetsOrder<T>(xs: seq<T>, ys: seq<T>, key: T -> string)
    requires multiset(xs) == multiset(ys)
    requires KeysInjective(xs, key)
    ensures SortBy(xs, key) == SortBy(ys, key)
  {
    var s := SortBy(xs, key);
    assert KeysInjective(s, key) by {
      forall a, b | a in s && b in s && key(a) == key(b) ensures a == b {
        assert a in multiset(s) && b in multiset(s);
        assert a in multiset(xs) && b in multiset(xs);
      }
    }
    SortedUnique(s, SortBy(ys, key), key);
  }
}
