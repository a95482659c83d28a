/**
 * Python's insertion-ordered `dict` with string keys, as a sequence of slots: assigning to a
 * present key overwrites its value in place, assigning to a new key appends a slot.
 */
module Dict {
  import opened Wrappers

  type Dict<V> = seq<(string, V)>

  predicate DistinctKeys<V>(d: Dict<V>) {
    forall i, j :: 0 <= i < j < |d| ==> d[i].0 != d[j].0
  }

  /** `d.get(k)`. */
  function Get<V>(d: Dict<V>, k: string): (r: Option<V>)
    ensures r.None? <==> forall i :: 0 <= i < |d| ==> d[i].0 != k
    ensures r.Some? ==> exists i :: 0 <= i < |d| && d[i].0 == k && d[i].1 == r.value
  {
    if d == [] then None
    else if d[0].0 == k then Some(d[0].1)
    else Get(d[1..], k)
  }

  /** With distinct keys, `Get` finds the one slot holding the key. */
  lemma GetSlot<V>(d: Dict<V>, i: nat)
    requires DistinctKeys(d) && i < |d|
    ensures Get(d, d[i].0) == Some(d[i].1)
  {
    var g := Get(d, d[i].0);
    var j :| 0 <= j < |d| && d[j].0 == d[i].0 && d[j].1 == g.value;
    assert j == i;
  }

  /** `d[k] = v`. */
  function Assign<V>(d: Dict<V>, k: string, v: V): (d': Dict<V>)
    requires DistinctKeys(d)
    ensures DistinctKeys(d')
    ensures Get(d', k) == Some(v)
    ensures |d'| == if Get(d, k).Some? then |d| else |d| + 1
    decreases |d|, 0
  {
    if d == [] then [(k, v)]
    else if d[0].0 == k then
      var d' := [(k, v)] + d[1..];
      assert forall i :: 0 < i < |d| ==> d'[i] == d[i];
      d'
    else
      var rest := Assign(d[1..], k, v);
      AssignKeys(d[1..], k, v);
      [d[0]] + rest
  }

  /** Assigning keeps every existing slot's key, and a slot it adds holds `k`. */
  lemma {:induction false} AssignKeys<V>(d: Dict<V>, k: string, v: V)
    requires DistinctKeys(d)
    ensures forall i :: 0 <= i < |d| ==> Assign(d, k, v)[i].0 == d[i].0
    ensures forall i :: |d| <= i < |Assign(d, k, v)| ==> Assign(d, k, v)[i].0 == k
    decreases |d|, 1
  {
    if d != [] && d[0].0 != k {
      AssignKeys(d[1..], k, v);
    }
  }

  /** Assigning to `k` leaves every other key's value as it was. */
  lemma {:induction false} AssignOthers<V>(d: Dict<V>, k: string, v: V, k': string)
    requires DistinctKeys(d) && k' != k
    ensures Get(Assign(d, k, v), k') == Get(d, k')
    decreases |d|
  {
    if d != [] && d[0].0 != k {
      AssignOthers(d[1..], k, v, k');
    }
  }

  /** The assignments `d[k] = v` for every `(k, v)` in `es`, in order. */
  function AssignAll<V>(d: Dict<V>, es: seq<(string, V)>): (d': Dict<V>)
    requires DistinctKeys(d)
    ensures DistinctKeys(d')
    decreases |es|
  {
    if es == [] then d else AssignAll(Assign(d, es[0].0, es[0].1), es[1..])
  }

  /** The value of the last assignment to `k` in `es`. */
  function LastWith<V>(es: seq<(string, V)>, k: string): (r: Option<V>)
    ensures r.None? <==> forall i :: 0 <= i < |es| ==> es[i].0 != k
    ensures r.Some? ==> exists i :: 0 <= i < |es| && es[i] == (k, r.value) &&
                           forall j :: i < j < |es| ==> es[j].0 != k
    decreases |es|
  {
    if es == [] then None
    else if es[|es| - 1].0 == k then Some(es[|es| - 1].1)
    else LastWith(es[..|es| - 1], k)
  }

  lemma {:induction false} LastWithCons<V>(es: seq<(string, V)>, k: string)
    requires es != []
    ensures LastWith(es, k) == if LastWith(es[1..], k).Some? then LastWith(es[1..], k)
                               else if es[0].0 == k then Some(es[0].1) else None
    decreases |es|
  {
    if |es| > 1 && es[|es| - 1].0 != k {
      LastWithCons(es[..|es| - 1], k);
      assert es[..|es| - 1][1..] == es[1..][..|es[1..]| - 1];
    }
  }

  /** An assignment that no later one overrides is the last one to its key. */
  lemma {:induction false} LastWithAt<V>(es: seq<(string, V)>, p: nat)
    requires p < |es|
    requires forall j :: p < j < |es| ==> es[j].0 != es[p].0
    ensures LastWith(es, es[p].0) == Some(es[p].1)
    decreases |es|
  {
    if p < |es| - 1 {
      LastWithAt(es[..|es| - 1], p);
    }
  }

  /** A later assignment hides every earlier one to the same key. */
  lemma {:induction false} LastWithAppend<V>(pre: seq<(string, V)>, post: seq<(string, V)>, k: string)
    requires LastWith(post, k).Some?
    ensures LastWith(pre + post, k) == LastWith(post, k)
    decreases |post|
  {
    var p := post[|post| - 1];
    assert (pre + post)[..|pre + post| - 1] == pre + post[..|post| - 1];
    if p.0 != k {
      LastWithAppend(pre, post[..|post| - 1], k);
    }
  }

  /** After the assignments, each key holds the last value assigned to it, or what it held before. */
  lemma {:induction false} AssignAllGet<V>(d: Dict<V>, es: seq<(string, V)>, k: string)
    requires DistinctKeys(d)
    ensures Get(AssignAll(d, es), k) == if LastWith(es, k).Some? then LastWith(es, k) else Get(d, k)
    decreases |es|
  {
    if es != [] {
      AssignAllGet(Assign(d, es[0].0, es[0].1), es[1..], k);
      if k != es[0].0 {
        AssignOthers(d, es[0].0, es[0].1, k);
      }
      LastWithCons(es, k);
    }
  }

  /** `list(d.values())`. */
  function Values<V>(d: Dict<V>): (vs: seq<V>)
    ensures |vs| == |d|
    ensures forall i :: 0 <= i < |d| ==> vs[i] == d[i].1
  {
    seq(|d|, i requires 0 <= i < |d| => d[i].1)
  }

  /** Every slot is stored under its value's own key. */
  ghost predicate KeyedBy<V>(d: Dict<V>, key: V -> string) {
    forall i :: 0 <= i < |d| ==> d[i].0 == key(d[i].1)
  }

  /** Every entry is under its value's own key. */
  ghost predicate EntriesKeyedBy<V>(es: seq<(string, V)>, key: V -> string) {
    forall i :: 0 <= i < |es| ==> es[i].0 == key(es[i].1)
  }

  /** Assigning from an empty dict entries that are each under their value's key yields a dict
      keyed the same way. */
  lemma AssignAllKeyed<V>(es: seq<(string, V)>, key: V -> string)
    requires EntriesKeyedBy(es, key)
    ensures KeyedBy(AssignAll([], es), key)
  {
    var d := AssignAll([], es);
    forall i | 0 <= i < |d| ensures d[i].0 == key(d[i].1) {
      GetSlot(d, i);
      AssignAllGet([], es, d[i].0);
    }
  }

  /** In a dict keyed by its values, a value sits in at most one slot. */
  lemma ValueOnce<V>(d: Dict<V>, key: V -> string, a: nat)
    requires DistinctKeys(d) && KeyedBy(d, key) && a < |d|
    ensures multiset(Values(d))[d[a].1] == 1
  {
    var vs := Values(d);
    forall k | 0 <= k < |vs| && k != a ensures vs[k] != vs[a] {
      assert d[k].0 != d[a].0;
    }
    CountOnce(vs, a);
  }

  /** An element different from all the others occurs once. */
  lemma {:induction false} CountOnce<T>(vs: seq<T>, a: nat)
    requires a < |vs|
    requires forall k :: 0 <= k < |vs| && k != a ==> vs[k] != vs[a]
    ensures multiset(vs)[vs[a]] == 1
  {
    var x := vs[a];
    var last := |vs| - 1;
    assert vs == vs[..last] + [vs[last]];
    if a == last {
      assert x !in vs[..last];
      assert multiset(vs[..last])[x] == 0;
    } else {
      CountOnce(vs[..last], a);
    }
  }

  /** Any arrangement of the values of a dict keyed by its values holds no two values with the
      same key, and holds a value exactly when the dict maps that value's key to it. */
  lemma ArrangedValues<V>(d: Dict<V>, key: V -> string, out: seq<V>)
    requires DistinctKeys(d) && KeyedBy(d, key)
    requires multiset(out) == multiset(Values(d))
    ensures forall i, j :: 0 <= i < j < |out| ==> key(out[i]) != key(out[j])
    ensures forall v :: v in out <==> Get(d, key(v)) == Some(v)
  {
    forall i, j | 0 <= i < j < |out| ensures key(out[i]) != key(out[j]) {
      ArrangedDistinct(d, key, out, i, j);
    }
    forall v ensures v in out <==> Get(d, key(v)) == Some(v) {
      ArrangedMember(d, key, out, v);
    }
  }

  lemma ArrangedMember<V>(d: Dict<V>, key: V -> string, out: seq<V>, v: V)
    requires DistinctKeys(d) && KeyedBy(d, key)
    requires multiset(out) == multiset(Values(d))
    ensures v in out <==> Get(d, key(v)) == Some(v)
  {
    var vs := Values(d);
    assert v in out <==> v in multiset(out);
    assert v in vs <==> v in multiset(vs);
    if v in vs {
      var i :| 0 <= i < |vs| && vs[i] == v;
      GetSlot(d, i);
    }
    if Get(d, key(v)) == Some(v) {
      var i :| 0 <= i < |d| && d[i].0 == key(v) && d[i].1 == v;
      assert vs[i] == v;
    }
  }

  lemma ArrangedDistinct<V>(d: Dict<V>, key: V -> string, out: seq<V>, i: nat, j: nat)
    requires DistinctKeys(d) && KeyedBy(d, key)
    requires multiset(out) == multiset(Values(d))
    requires i < j < |out|
    ensures key(out[i]) != key(out[j])
  {
    var vs := Values(d);
    if key(out[i]) == key(out[j]) {
      assert out[i] in multiset(vs) && out[j] in multiset(vs);
      var a :| 0 <= a < |vs| && vs[a] == out[i];
      var b :| 0 <= b < |vs| && vs[b] == out[j];
      assert a == b;
      TwiceCounted(out, i, j);
      ValueOnce(d, key, a);
    }
  }

  /** An element at two positions occurs at least twice. */
  lemma TwiceCounted<T>(xs: seq<T>, i: nat, j: nat)
    requires i < j < |xs| && xs[i] == xs[j]
    ensures multiset(xs)[xs[i]] >= 2
  {
    assert xs == xs[..i] + [xs[i]] + xs[i + 1..j] + [xs[j]] + xs[j + 1..];
  }

  /** Each value paired with its own key: the assignments `d[key(v)] = v`. */
  function Keyed<V>(vs: seq<V>, key: V -> string): (es: seq<(string, V)>)
    ensures |es| == |vs|
    ensures forall i :: 0 <= i < |vs| ==> es[i] == (key(vs[i]), vs[i])
    ensures EntriesKeyedBy(es, key)
  {
    seq(|vs|, i requires 0 <= i < |vs| => (key(vs[i]), vs[i]))
  }

  lemma KeyedAppend<V>(a: seq<V>, b: seq<V>, key: V -> string)
    ensures Keyed(a + b, key) == Keyed(a, key) + Keyed(b, key)
  {
    var l := Keyed(a + b, key);
    var r := Keyed(a, key) + Keyed(b, key);
    forall k | 0 <= k < |l| ensures l[k] == r[k] {
      if k < |a| {
        assert (a + b)[k] == a[k];
      } else {
        assert (a + b)[k] == b[k - |a|];
      }
    }
  }

  /** A value that no later value shares a key with is the last one assigned under its key. */
  lemma LastKeyed<V>(vs: seq<V>, key: V -> string, p: nat)
    requires p < |vs|
    requires forall j :: p < j < |vs| ==> key(vs[j]) != key(vs[p])
    ensures LastWith(Keyed(vs, key), key(vs[p])) == Some(vs[p])
  {
    var es := Keyed(vs, key);
    forall j | p < j < |es| ensures es[j].0 != es[p].0 {
    }
    LastWithAt(es, p);
  }
}
