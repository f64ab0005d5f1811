/**
  Python dictionaries from keys to float mass, as the decoder uses them.

  A dict is modelled by its items, a list of (key, mass) pairs in insertion
  order, so that iteration order (which decides ties in a stable sort) is
  part of the model. `Lookup` and `AddMass` are `d[k]` and `d[k] += x` on a
  `defaultdict(float)`; `Merge` feeds a list of pairs into a fresh
  defaultdict; `SortDesc` is `sorted(items, key=mass, reverse=True)`;
  `PyPrefix` is the slice `[:n]`.

  Masses are exact reals. The weighted sums `WSum(m, f)` (the sum of
  `Mul(mass, f(key))` over the items) are the tool for reasoning about mass: two
  item lists with equal weighted sums for every `f` carry the same mass on
  every key, whatever their order or multiplicity.
*/
module Dicts {

  /** The items of a dict, in insertion order. */
  type Items<K> = seq<(K, real)>

  /** The keys of the items. */
  function Keys<K(==)>(m: Items<K>): set<K>
  {
    if m == [] then {} else {m[0].0} + Keys(m[1..])
  }

  /** No key occurs twice: true of the items of every real dict. */
  predicate DistinctKeys<K(==)>(m: Items<K>)
  {
    m == [] || (m[0].0 !in Keys(m[1..]) && DistinctKeys(m[1..]))
  }

  /** `d[k]` on a `defaultdict(float)`: the mass of the first item with key `k`, or 0.0. */
  function Lookup<K(==)>(m: Items<K>, k: K): real
  {
    if m == [] then 0.0
    else if m[0].0 == k then m[0].1
    else Lookup(m[1..], k)
  }

  /** `d[k] += x` on a `defaultdict(float)`: an existing key keeps its place, a new one is appended. */
  function AddMass<K(==)>(m: Items<K>, k: K, x: real): Items<K>
  {
    if m == [] then [(k, x)]
    else if m[0].0 == k then [(k, m[0].1 + x)] + m[1..]
    else [m[0]] + AddMass(m[1..], k, x)
  }

  /** A fresh `defaultdict(float)` after `d[k] += x` for every pair of `cs`, left to right. */
  function Merge<K(==)>(cs: Items<K>): Items<K>
  {
    if cs == [] then []
    else AddMass(Merge(cs[..|cs| - 1]), cs[|cs| - 1].0, cs[|cs| - 1].1)
  }

  /**
    The product of two reals. Every product of masses is written with `Mul`,
    so that two products with equal factors are equal by congruence alone;
    `MulAddLeft` and its neighbours supply the algebra the proofs use.
  */
  function Mul(x: real, y: real): real
  {
    x * y
  }

  lemma MulAddLeft(a: real, b: real, s: real, c: real)
    requires s == a + b
    ensures Mul(s, c) == Mul(a, c) + Mul(b, c)
  {
  }

  lemma MulAddRight(a: real, b: real, c: real, s: real)
    requires s == b + c
    ensures Mul(a, s) == Mul(a, b) + Mul(a, c)
  {
  }

  lemma MulAssoc(a: real, b: real, c: real)
    ensures Mul(Mul(a, b), c) == Mul(a, Mul(b, c))
  {
  }

  lemma MulOne(a: real)
    ensures Mul(a, 1.0) == a
  {
  }

  lemma MulComm(a: real, b: real)
    ensures Mul(a, b) == Mul(b, a)
  {
  }

  /** The sum of mass * f(key) over the items. */
  function WSum<K>(m: Items<K>, f: K -> real): real
  {
    if m == [] then 0.0 else Mul(m[0].1, f(m[0].0)) + WSum(m[1..], f)
  }

  /** The weight that counts key `k` once and every other key not at all. */
  function Indicator<K(==)>(k: K): K -> real
  {
    j => if j == k then 1.0 else 0.0
  }

  /** The weight that counts every key once. */
  function One<K>(): K -> real
  {
    j => 1.0
  }

  /** The total mass carried by the items with key `k`. */
  function MassAt<K(==)>(cs: Items<K>, k: K): real
  {
    WSum(cs, Indicator(k))
  }

  /** The total mass of all items. */
  function TotalMass<K(==)>(cs: Items<K>): real
  {
    WSum(cs, One())
  }

  /** `a` and `b` carry the same mass on every key (whatever their order). */
  ghost predicate SameMass<K(!new)>(a: Items<K>, b: Items<K>)
  {
    forall f: K -> real :: WSum(a, f) == WSum(b, f)
  }

  /** Every mass is non-negative. */
  predicate NonNegative<K>(m: Items<K>)
  {
    forall i :: 0 <= i < |m| ==> m[i].1 >= 0.0
  }

  /** Masses are in descending order. */
  predicate SortedDesc<K>(m: Items<K>)
  {
    forall i, j :: 0 <= i < j < |m| ==> m[i].1 >= m[j].1
  }

  /** Inserts `x` after every item of `r` whose mass is at least `x`'s. */
  function InsertDesc<K>(x: (K, real), r: Items<K>): Items<K>
  {
    if r == [] then [x]
    else if r[0].1 >= x.1 then [r[0]] + InsertDesc(x, r[1..])
    else [x] + r
  }

  /**
    `sorted(s, key=lambda x: x[1], reverse=True)`: descending by mass, and
    stable, so items of equal mass keep their original order.
  */
  function SortDesc<K>(s: Items<K>): Items<K>
  {
    if s == [] then [] else InsertDesc(s[|s| - 1], SortDesc(s[..|s| - 1]))
  }

  /** The items whose mass is exactly `v`, in order. */
  function WithMass<K>(m: Items<K>, v: real): Items<K>
  {
    if m == [] then []
    else (if m[0].1 == v then [m[0]] else []) + WithMass(m[1..], v)
  }

  /** Python's slice `s[:n]`, including the meaning of a negative `n`. */
  function PyPrefix<T>(s: seq<T>, n: int): seq<T>
  {
    if n >= 0 then (if n <= |s| then s[..n] else s)
    else (if |s| + n >= 0 then s[..|s| + n] else [])
  }

  // ---------------------------------------------------------------------
  // Keys, lookups and weighted sums

  lemma {:induction false} KeysAppend<K>(a: Items<K>, b: Items<K>)
    ensures Keys(a + b) == Keys(a) + Keys(b)
  {
    if a == [] {
      assert a + b == b;
    } else {
      assert (a + b)[1..] == a[1..] + b;
      KeysAppend(a[1..], b);
    }
  }

  lemma {:induction false} WSumAppend<K>(a: Items<K>, b: Items<K>, f: K -> real)
    ensures WSum(a + b, f) == WSum(a, f) + WSum(b, f)
  {
    if a == [] {
      assert a + b == b;
    } else {
      assert (a + b)[1..] == a[1..] + b;
      WSumAppend(a[1..], b, f);
    }
  }

  lemma {:induction false} WSumSingle<K>(x: (K, real), f: K -> real)
    ensures WSum([x], f) == Mul(x.1, f(x.0))
  {
  }

  lemma {:induction false} WSumSnoc<K>(p: Items<K>, x: (K, real), f: K -> real)
    ensures WSum(p + [x], f) == WSum(p, f) + Mul(x.1, f(x.0))
  {
    WSumAppend(p, [x], f);
    WSumSingle(x, f);
  }

  lemma {:induction false} WithMassSingle<K>(x: (K, real), v: real)
    ensures WithMass([x], v) == if x.1 == v then [x] else []
  {
  }

  /** Every item's key is a key, and every key is the key of some item. */
  lemma {:induction false} KeysIndex<K>(m: Items<K>, i: int)
    requires 0 <= i < |m|
    ensures m[i].0 in Keys(m)
  {
    if i > 0 {
      KeysIndex(m[1..], i - 1);
    }
  }

  /** In a dict no two items share a key. */
  lemma {:induction false} DistinctKeysIndex<K>(m: Items<K>, i: int, j: int)
    requires DistinctKeys(m) && 0 <= i < j < |m|
    ensures m[i].0 != m[j].0
  {
    KeysIndex(m[1..], j - 1);
    if i > 0 {
      DistinctKeysIndex(m[1..], i - 1, j - 1);
    }
  }

  /** The position of the first item with key `k`. */
  ghost function KeyIndex<K>(m: Items<K>, k: K): (i: nat)
    requires k in Keys(m)
    ensures i < |m| && m[i].0 == k
  {
    if m[0].0 == k then 0 else 1 + KeyIndex(m[1..], k)
  }

  /** In a dict, looking up an item's key gives that item's mass. */
  lemma {:induction false} LookupIndex<K>(m: Items<K>, i: int)
    requires DistinctKeys(m) && 0 <= i < |m|
    ensures Lookup(m, m[i].0) == m[i].1
  {
    if i > 0 {
      KeysIndex(m[1..], i - 1);
      LookupIndex(m[1..], i - 1);
    }
  }

  /** A key that is absent has no mass and looks up as 0.0. */
  lemma {:induction false} AbsentKey<K>(m: Items<K>, k: K)
    requires k !in Keys(m)
    ensures Lookup(m, k) == 0.0 && MassAt(m, k) == 0.0
  {
    if m != [] {
      AbsentKey(m[1..], k);
    }
  }

  /** In a dict, `d[k]` is the whole mass carried under `k`. */
  lemma {:induction false} LookupIsMass<K>(m: Items<K>, k: K)
    requires DistinctKeys(m)
    ensures Lookup(m, k) == MassAt(m, k)
  {
    if m != [] {
      if m[0].0 == k {
        AbsentKey(m[1..], k);
      } else {
        LookupIsMass(m[1..], k);
      }
    }
  }

  /** A dict has as many items as keys. */
  lemma {:induction false} DistinctKeysCard<K>(m: Items<K>)
    requires DistinctKeys(m)
    ensures |Keys(m)| == |m|
  {
    if m != [] {
      DistinctKeysCard(m[1..]);
    }
  }

  lemma {:induction false} DistinctSnoc<K>(a: Items<K>, x: (K, real))
    requires DistinctKeys(a + [x])
    ensures DistinctKeys(a) && x.0 !in Keys(a)
  {
    if a != [] {
      assert (a + [x])[1..] == a[1..] + [x];
      KeysAppend(a[1..], [x]);
      DistinctSnoc(a[1..], x);
    }
  }

  lemma {:induction false} KeysPrefix<K>(m: Items<K>, n: nat)
    requires n <= |m|
    ensures Keys(m[..n]) <= Keys(m)
  {
    if n > 0 {
      assert m[..n][1..] == m[1..][..n - 1];
      KeysPrefix(m[1..], n - 1);
    }
  }

  lemma {:induction false} DistinctPrefix<K>(m: Items<K>, n: nat)
    requires DistinctKeys(m) && n <= |m|
    ensures DistinctKeys(m[..n]) && Keys(m[..n]) <= Keys(m)
  {
    if n > 0 {
      assert m[..n][1..] == m[1..][..n - 1];
      DistinctPrefix(m[1..], n - 1);
    }
  }

  lemma {:induction false} SameMassLookup<K(!new)>(a: Items<K>, b: Items<K>, k: K)
    requires DistinctKeys(a) && DistinctKeys(b) && SameMass(a, b)
    ensures Lookup(a, k) == Lookup(b, k)
  {
    LookupIsMass(a, k);
    LookupIsMass(b, k);
    assert WSum(a, Indicator(k)) == WSum(b, Indicator(k));
  }

  // ---------------------------------------------------------------------
  // defaultdict accumulation

  /** `d[k] += x` adds `x` to the mass of `k` and leaves every other key alone. */
  lemma {:induction false} AddMassLookup<K>(m: Items<K>, k: K, x: real, j: K)
    ensures Lookup(AddMass(m, k, x), j) == Lookup(m, j) + (if j == k then x else 0.0)
  {
    if m != [] && m[0].0 != k {
      AddMassLookup(m[1..], k, x, j);
    }
  }

  /** `d[k] += x` makes `k` a key and keeps every item a dict. */
  lemma {:induction false} AddMassShape<K>(m: Items<K>, k: K, x: real)
    ensures Keys(AddMass(m, k, x)) == Keys(m) + {k}
    ensures |AddMass(m, k, x)| == |m| + (if k in Keys(m) then 0 else 1)
    ensures DistinctKeys(m) ==> DistinctKeys(AddMass(m, k, x))
  {
    if m != [] && m[0].0 != k {
      AddMassShape(m[1..], k, x);
    }
  }

  /** `d[k] += x` on a key `d` does not hold yet appends it last: dicts keep insertion order. */
  lemma {:induction false} AddMassFresh<K>(m: Items<K>, k: K, x: real)
    requires forall i :: 0 <= i < |m| ==> m[i].0 != k
    ensures AddMass(m, k, x) == m + [(k, x)]
  {
    if m != [] {
      AddMassFresh(m[1..], k, x);
      assert m == [m[0]] + m[1..];
    }
  }

  lemma {:induction false} AddMassWSum<K>(m: Items<K>, k: K, x: real, f: K -> real)
    ensures WSum(AddMass(m, k, x), f) == WSum(m, f) + Mul(x, f(k))
  {
    if m != [] {
      if m[0].0 == k {
        MulAddLeft(m[0].1, x, m[0].1 + x, f(k));
      } else {
        AddMassWSum(m[1..], k, x, f);
      }
    }
  }

  lemma {:induction false} MergeSnoc<K>(cs: Items<K>, x: (K, real))
    ensures Merge(cs + [x]) == AddMass(Merge(cs), x.0, x.1)
  {
    assert (cs + [x])[..|cs|] == cs;
  }

  /**
    Accumulating pairs into a defaultdict gives a dict over exactly their
    keys, never longer than the list of pairs.
  */
  lemma {:induction false} MergeShape<K>(cs: Items<K>)
    ensures DistinctKeys(Merge(cs)) && Keys(Merge(cs)) == Keys(cs)
    ensures |Merge(cs)| <= |cs|
  {
    if cs != [] {
      var p, x := cs[..|cs| - 1], cs[|cs| - 1];
      assert cs == p + [x];
      MergeShape(p);
      AddMassShape(Merge(p), x.0, x.1);
      KeysAppend(p, [x]);
    }
  }

  lemma {:induction false} MergeWSum<K>(cs: Items<K>, f: K -> real)
    ensures WSum(Merge(cs), f) == WSum(cs, f)
  {
    if cs != [] {
      var p, x := cs[..|cs| - 1], cs[|cs| - 1];
      MergeWSum(p, f);
      var m := Merge(p);
      AddMassWSum(m, x.0, x.1, f);
      WSumSnoc(p, x, f);
      assert cs == p + [x];
    }
  }

  /** Looking a key up after accumulating gives the sum of the masses of the pairs that carry it. */
  lemma {:induction false} MergeLookup<K>(cs: Items<K>, k: K)
    ensures Lookup(Merge(cs), k) == MassAt(cs, k)
  {
    MergeShape(cs);
    LookupIsMass(Merge(cs), k);
    MergeWSum(cs, Indicator(k));
  }

  /** Accumulating keeps the mass on every key. */
  lemma {:induction false} MergeMass<K(!new)>(cs: Items<K>)
    ensures SameMass(Merge(cs), cs)
  {
    forall f: K -> real
      ensures WSum(Merge(cs), f) == WSum(cs, f)
    {
      MergeWSum(cs, f);
    }
  }

  // ---------------------------------------------------------------------
  // Stable descending sort

  lemma {:induction false} InsertDescPerm<K>(x: (K, real), r: Items<K>)
    ensures multiset(InsertDesc(x, r)) == multiset(r) + multiset{x}
    ensures |InsertDesc(x, r)| == |r| + 1
  {
    if r != [] {
      assert r == [r[0]] + r[1..];
      if r[0].1 >= x.1 {
        InsertDescPerm(x, r[1..]);
      }
    }
  }

  /**
    An item goes in after every item at least as heavy as it and before the
    first lighter one: among equal masses the earlier item stays first.
  */
  lemma {:induction false} InsertDescAt<K>(x: (K, real), front: Items<K>, back: Items<K>)
    requires forall i :: 0 <= i < |front| ==> front[i].1 >= x.1
    requires back == [] || back[0].1 < x.1
    ensures InsertDesc(x, front + back) == front + [x] + back
  {
    if front != [] {
      InsertDescAt(x, front[1..], back);
      assert front + back == [front[0]] + (front[1..] + back);
      assert front + [x] + back == [front[0]] + (front[1..] + [x] + back);
    }
  }

  lemma {:induction false} InsertDescSorted<K>(x: (K, real), r: Items<K>)
    requires SortedDesc(r)
    ensures SortedDesc(InsertDesc(x, r))
  {
    if r != [] && r[0].1 >= x.1 {
      var rest := InsertDesc(x, r[1..]);
      InsertDescSorted(x, r[1..]);
      InsertDescPerm(x, r[1..]);
      forall i | 0 <= i < |rest|
        ensures r[0].1 >= rest[i].1
      {
        assert rest[i] in multiset(rest);
        assert rest[i] in multiset(r[1..]) || rest[i] == x;
      }
    }
  }

  lemma {:induction false} InsertDescKeys<K>(x: (K, real), r: Items<K>)
    ensures Keys(InsertDesc(x, r)) == Keys(r) + {x.0}
    ensures DistinctKeys(r) && x.0 !in Keys(r) ==> DistinctKeys(InsertDesc(x, r))
  {
    if r != [] && r[0].1 >= x.1 {
      InsertDescKeys(x, r[1..]);
      assert ([r[0]] + InsertDesc(x, r[1..]))[1..] == InsertDesc(x, r[1..]);
    } else if r != [] {
      assert ([x] + r)[1..] == r;
    }
  }

  lemma {:induction false} InsertDescWSum<K>(x: (K, real), r: Items<K>, f: K -> real)
    ensures WSum(InsertDesc(x, r), f) == WSum(r, f) + Mul(x.1, f(x.0))
  {
    if r != [] && r[0].1 >= x.1 {
      InsertDescWSum(x, r[1..], f);
      assert ([r[0]] + InsertDesc(x, r[1..]))[1..] == InsertDesc(x, r[1..]);
    } else if r != [] {
      assert ([x] + r)[1..] == r;
    }
  }

  lemma {:induction false} InsertDescStable<K>(x: (K, real), r: Items<K>, v: real)
    requires SortedDesc(r)
    ensures WithMass(InsertDesc(x, r), v) == WithMass(r, v) + WithMass([x], v)
  {
    if r == [] {
      assert InsertDesc(x, r) == [x];
    } else if r[0].1 >= x.1 {
      var wx, w0 := WithMass([x], v), if r[0].1 == v then [r[0]] else [];
      var rest := InsertDesc(x, r[1..]);
      assert SortedDesc(r[1..]) by {
        forall i, j | 0 <= i < j < |r| - 1
          ensures r[1..][i].1 >= r[1..][j].1
        {
          assert r[1..][i] == r[i + 1] && r[1..][j] == r[j + 1];
        }
      }
      InsertDescStable(x, r[1..], v);
      assert WithMass(r, v) == w0 + WithMass(r[1..], v);
      assert ([r[0]] + rest)[0] == r[0] && ([r[0]] + rest)[1..] == rest;
      assert WithMass([r[0]] + rest, v) == w0 + WithMass(rest, v);
      assert w0 + (WithMass(r[1..], v) + wx) == (w0 + WithMass(r[1..], v)) + wx;
    } else {
      InsertBeforeLighter(x, r, v);
    }
  }

  /** An item heavier than every item of a sorted list goes first, after them in the items of its mass. */
  lemma {:induction false} InsertBeforeLighter<K>(x: (K, real), r: Items<K>, v: real)
    requires SortedDesc(r) && r != [] && r[0].1 < x.1
    ensures WithMass([x] + r, v) == WithMass(r, v) + WithMass([x], v)
  {
    WithMassSingle(x, v);
    assert ([x] + r)[0] == x && ([x] + r)[1..] == r;
    assert WithMass([x] + r, v) == WithMass([x], v) + WithMass(r, v);
    if x.1 == v {
      NoneWithMass(r, v);
    } else {
      assert WithMass([x], v) == [];
    }
  }

  lemma {:induction false} NoneWithMass<K>(r: Items<K>, v: real)
    requires SortedDesc(r) && r != [] && r[0].1 < v
    ensures WithMass(r, v) == []
  {
    if |r| > 1 {
      NoneWithMass(r[1..], v);
    }
  }

  lemma {:induction false} WithMassAppend<K>(a: Items<K>, b: Items<K>, v: real)
    ensures WithMass(a + b, v) == WithMass(a, v) + WithMass(b, v)
  {
    if a == [] {
      assert a + b == b;
    } else {
      var h := if a[0].1 == v then [a[0]] else [];
      assert (a + b)[0] == a[0] && (a + b)[1..] == a[1..] + b;
      assert WithMass(a + b, v) == h + WithMass(a[1..] + b, v);
      WithMassAppend(a[1..], b, v);
      assert h + (WithMass(a[1..], v) + WithMass(b, v)) == (h + WithMass(a[1..], v)) + WithMass(b, v);
    }
  }

  /** The sort returns the same items, in descending order of mass. */
  lemma {:induction false} SortDescPerm<K>(s: Items<K>)
    ensures SortedDesc(SortDesc(s))
    ensures multiset(SortDesc(s)) == multiset(s) && |SortDesc(s)| == |s|
  {
    if s != [] {
      var p, x := s[..|s| - 1], s[|s| - 1];
      assert s == p + [x];
      SortDescPerm(p);
      InsertDescPerm(x, SortDesc(p));
      InsertDescSorted(x, SortDesc(p));
    }
  }

  /** The sort is stable: the items of any one mass keep their original order. */
  lemma {:induction false} SortDescStable<K>(s: Items<K>, v: real)
    ensures WithMass(SortDesc(s), v) == WithMass(s, v)
  {
    if s != [] {
      var p, x := s[..|s| - 1], s[|s| - 1];
      assert s == p + [x];
      SortDescStable(p, v);
      SortDescPerm(p);
      InsertDescStable(x, SortDesc(p), v);
      WithMassAppend(p, [x], v);
    }
  }

  /** The sort keeps the keys, and keeps a dict a dict. */
  lemma {:induction false} SortDescKeys<K>(s: Items<K>)
    ensures Keys(SortDesc(s)) == Keys(s)
    ensures DistinctKeys(s) ==> DistinctKeys(SortDesc(s))
  {
    if s != [] {
      var p, x := s[..|s| - 1], s[|s| - 1];
      assert s == p + [x];
      SortDescKeys(p);
      InsertDescKeys(x, SortDesc(p));
      KeysAppend(p, [x]);
      if DistinctKeys(s) {
        DistinctSnoc(p, x);
      }
    }
  }

  lemma {:induction false} SortDescWSum<K>(s: Items<K>, f: K -> real)
    ensures WSum(SortDesc(s), f) == WSum(s, f)
  {
    if s != [] {
      var p, x := s[..|s| - 1], s[|s| - 1];
      assert s == p + [x];
      SortDescWSum(p, f);
      InsertDescWSum(x, SortDesc(p), f);
      WSumAppend(p, [x], f);
      WSumSingle(x, f);

    }
  }

  /** The sort keeps the mass on every key. */
  lemma {:induction false} SortDescMass<K(!new)>(s: Items<K>)
    ensures SameMass(SortDesc(s), s)
  {
    forall f: K -> real
      ensures WSum(SortDesc(s), f) == WSum(s, f)
    {
      SortDescWSum(s, f);
    }
  }

  lemma {:induction false} PyPrefixFacts<T>(s: seq<T>, n: int)
    ensures exists m :: 0 <= m <= |s| && PyPrefix(s, n) == s[..m]
    ensures n >= 0 ==> |PyPrefix(s, n)| == if n <= |s| then n else |s|
    ensures n >= |s| ==> PyPrefix(s, n) == s
  {
    if n >= 0 {
      if n <= |s| {
        assert PyPrefix(s, n) == s[..n];
      } else {
        assert PyPrefix(s, n) == s[..|s|];
      }
    } else if |s| + n >= 0 {
      assert PyPrefix(s, n) == s[..|s| + n];
    } else {
      assert PyPrefix(s, n) == s[..0];
    }
  }

  // ---------------------------------------------------------------------
  // Non-negative masses

  /** The product of two non-negative reals is non-negative. */
  lemma MulNonNegative(x: real, y: real)
    requires x >= 0.0 && y >= 0.0
    ensures Mul(x, y) >= 0.0
  {
  }

  /** A concatenation has non-negative masses exactly when both parts do. */
  lemma {:induction false} NonNegativeAppend<K>(a: Items<K>, b: Items<K>)
    ensures NonNegative(a + b) <==> NonNegative(a) && NonNegative(b)
  {
    if NonNegative(a + b) {
      forall i | 0 <= i < |a|
        ensures a[i].1 >= 0.0
      {
        assert (a + b)[i] == a[i];
      }
      forall i | 0 <= i < |b|
        ensures b[i].1 >= 0.0
      {
        assert (a + b)[|a| + i] == b[i];
      }
    }
    if NonNegative(a) && NonNegative(b) {
      forall i | 0 <= i < |a + b|
        ensures (a + b)[i].1 >= 0.0
      {
        if i < |a| {
          assert (a + b)[i] == a[i];
        } else {
          assert (a + b)[i] == b[i - |a|];
        }
      }
    }
  }

  /** `d[k] += x` with a non-negative `x` keeps every value of `d` non-negative. */
  lemma {:induction false} AddMassNonNegative<K>(m: Items<K>, k: K, x: real)
    requires NonNegative(m) && x >= 0.0
    ensures NonNegative(AddMass(m, k, x))
  {
    if m != [] && m[0].0 != k {
      AddMassNonNegative(m[1..], k, x);
      var r := AddMass(m[1..], k, x);
      assert AddMass(m, k, x) == [m[0]] + r;
      forall i | 0 <= i < |r| + 1
        ensures ([m[0]] + r)[i].1 >= 0.0
      {
        if i > 0 {
          assert ([m[0]] + r)[i] == r[i - 1];
        }
      }
    }
  }

  /** Accumulating non-negative masses gives non-negative values. */
  lemma {:induction false} MergeNonNegative<K>(cs: Items<K>)
    requires NonNegative(cs)
    ensures NonNegative(Merge(cs))
  {
    if cs != [] {
      MergeNonNegative(cs[..|cs| - 1]);
      AddMassNonNegative(Merge(cs[..|cs| - 1]), cs[|cs| - 1].0, cs[|cs| - 1].1);
    }
  }

  /** Sorting and slicing keep masses non-negative: they only keep items of the input. */
  lemma {:induction false} PrefixSortNonNegative<K>(s: Items<K>, n: int)
    requires NonNegative(s)
    ensures NonNegative(SortDesc(s)) && NonNegative(PyPrefix(SortDesc(s), n))
  {
    var r := SortDesc(s);
    SortDescPerm(s);
    forall i | 0 <= i < |r|
      ensures r[i].1 >= 0.0
    {
      assert r[i] in multiset(r);
      assert r[i] in multiset(s);
    }
    PyPrefixFacts(r, n);
  }

  // ---------------------------------------------------------------------
  // Ranking

  /**
    Two dicts sorted by descending mass, with the same keys and the same mass
    on each key, are the same list as soon as the masses of one of them are
    pairwise distinct: the ranking is then determined by the masses alone.
  */
  lemma {:induction false} RankingUnique<K>(a: Items<K>, b: Items<K>)
    requires DistinctKeys(a) && DistinctKeys(b) && SortedDesc(a) && SortedDesc(b)
    requires Keys(a) == Keys(b) && forall k :: Lookup(a, k) == Lookup(b, k)
    requires forall i, j :: 0 <= i < j < |a| ==> a[i].1 != a[j].1
    ensures a == b
  {
    if a == [] {
      if b != [] {
        KeysIndex(b, 0);
      }
    } else {
      KeysIndex(a, 0);
      KeysIndex(b, 0);
      var k, k' := a[0].0, b[0].0;
      var i, j := KeyIndex(a, k'), KeyIndex(b, k);
      LookupIndex(a, 0);
      LookupIndex(b, 0);
      LookupIndex(a, i);
      LookupIndex(b, j);
      assert a[0] == b[0];
      var a', b' := a[1..], b[1..];
      forall k0
        ensures Lookup(a', k0) == Lookup(b', k0)
      {
        if k0 == k {
          AbsentKey(a', k0);
          AbsentKey(b', k0);
        } else {
          assert Lookup(a, k0) == Lookup(b, k0);
        }
      }
      RankingUnique(a', b');
    }
  }
}
