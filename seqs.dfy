/** Sequence helpers standing in for the numpy and Python built-ins the
    generator calls: `np.sum`, `max`, the stable `sorted` with a key, and
    list flattening. */
module Seqs {

  /** `np.sum` over a list of exact reals. */
  function Sum(s: seq<real>): real
  {
    if s == [] then 0.0 else s[0] + Sum(s[1..])
  }

  lemma {:induction false} SumAppend(a: seq<real>, b: seq<real>)
    ensures Sum(a + b) == Sum(a) + Sum(b)
  {
    if a == [] {
      assert a + b == b;
    } else {
      assert (a + b)[1..] == a[1..] + b;
      SumAppend(a[1..], b);
    }
  }

  /** A sum whose terms after the first are all zero is its first term. */
  lemma {:induction false} SumFirstOnly(s: seq<real>)
    requires |s| > 0 && forall i :: 1 <= i < |s| ==> s[i] == 0.0
    ensures Sum(s) == s[0]
  {
    if |s| > 1 {
      var t := [0.0] + s[2..];
      assert s[1..] == [s[1]] + s[2..];
      assert forall i :: 1 <= i < |t| ==> t[i] == s[i + 1];
      SumFirstOnly(t);
      assert t[1..] == s[2..];
    }
  }

  /** The largest element of a non-empty list. */
  function Max(s: seq<real>): (m: real)
    requires |s| > 0
    ensures m in s
    ensures forall i :: 0 <= i < |s| ==> s[i] <= m
  {
    if |s| == 1 then s[0]
    else
      var rest := Max(s[1..]);
      assert forall i :: 1 <= i < |s| ==> s[i] == s[1..][i - 1];
      if s[0] >= rest then s[0] else rest
  }

  /** All values equal (`len(np.unique(s)) <= 1`). */
  predicate AllEqual(s: seq<real>)
  {
    forall i, j :: 0 <= i < |s| && 0 <= j < |s| ==> s[i] == s[j]
  }

  /** Concatenation of a list of lists (`[x for sub in subs for x in sub]`). */
  function Flatten<T>(subs: seq<seq<T>>): seq<T>
  {
    if subs == [] then [] else subs[0] + Flatten(subs[1..])
  }

  /** In a flattening of blocks of equal size `k`, element `t` of block `j`
      sits at position `j * k + t`. */
  lemma {:induction false} FlattenAt<T>(subs: seq<seq<T>>, k: nat, j: nat, t: nat)
    requires forall i :: 0 <= i < |subs| ==> |subs[i]| == k
    requires j < |subs| && t < k
    ensures |Flatten(subs)| == |subs| * k
    ensures j * k + t < |Flatten(subs)|
    ensures Flatten(subs)[j * k + t] == subs[j][t]
  {
    FlattenLength(subs, k);
    if j > 0 {
      FlattenAt(subs[1..], k, j - 1, t);
      MulPeel(j, k);
      MulPeel(|subs|, k);
      assert Flatten(subs) == subs[0] + Flatten(subs[1..]);
    } else {
      MulPeel(|subs|, k);
    }
  }

  /** `a` blocks of `k` are one block and `a - 1` more. */
  lemma MulPeel(a: nat, k: nat)
    requires a > 0
    ensures a * k == k + (a - 1) * k && (a - 1) * k >= 0
  {
  }

  lemma {:induction false} FlattenLength<T>(subs: seq<seq<T>>, k: nat)
    requires forall i :: 0 <= i < |subs| ==> |subs[i]| == k
    ensures |Flatten(subs)| == |subs| * k
  {
    if subs != [] {
      FlattenLength(subs[1..], k);
      MulPeel(|subs|, k);
    }
  }

  // ---------------------------------------------------------------------
  // Stable sorting of positions by a key: `sorted(zip(keys, ..., range(n)),
  // key=lambda x: x[0])` keeps, for equal keys, the original order, so the
  // positions come out ordered by (key, position).

  /** Position `a` comes strictly before position `b` in a stable sort by `keys`. */
  predicate Precedes(keys: seq<real>, a: nat, b: nat)
    requires a < |keys| && b < |keys|
  {
    keys[a] < keys[b] || (keys[a] == keys[b] && a < b)
  }

  /** `s` lists positions of `keys` in stable ascending key order. */
  predicate StablySorted(keys: seq<real>, s: seq<nat>)
  {
    && (forall i :: 0 <= i < |s| ==> s[i] < |keys|)
    && (forall i, j :: 0 <= i < j < |s| ==> Precedes(keys, s[i], s[j]))
  }

  /** No position occurs twice. */
  predicate Distinct(s: seq<nat>)
  {
    forall i, j :: 0 <= i < j < |s| ==> s[i] != s[j]
  }

  /** `s` is an arrangement of the positions `0 .. n-1`. */
  predicate IsArrangement(s: seq<nat>, n: nat)
  {
    && |s| == n
    && Distinct(s)
    && (forall i :: 0 <= i < |s| ==> s[i] < n)
    && (forall c :: 0 <= c < n ==> c in s)
  }

  function Insert(keys: seq<real>, x: nat, s: seq<nat>): (r: seq<nat>)
    requires x < |keys|
    requires forall i :: 0 <= i < |s| ==> x < s[i]
    requires StablySorted(keys, s)
    ensures |r| == |s| + 1
    ensures forall c :: c in r <==> c == x || c in s
    ensures StablySorted(keys, r)
  {
    if s == [] || keys[x] <= keys[s[0]] then
      [x] + s
    else
      var tail := Insert(keys, x, s[1..]);
      assert forall i :: 0 <= i < |tail| ==> tail[i] == x || tail[i] in s[1..];
      [s[0]] + tail
  }

  /** Stable ascending sort of the positions `k .. |keys|-1` by key. */
  function SortFrom(keys: seq<real>, k: nat): (r: seq<nat>)
    requires k <= |keys|
    decreases |keys| - k
    ensures |r| == |keys| - k
    ensures forall c :: c in r <==> k <= c < |keys|
    ensures StablySorted(keys, r)
  {
    if k == |keys| then []
    else
      var rest := SortFrom(keys, k + 1);
      assert forall i :: 0 <= i < |rest| ==> rest[i] in rest;
      Insert(keys, k, rest)
  }

  /** The positions of `keys` in the order Python's stable `sorted` by key
      visits them. */
  function SortIndices(keys: seq<real>): (r: seq<nat>)
    ensures IsArrangement(r, |keys|)
    ensures StablySorted(keys, r)
  {
    var r := SortFrom(keys, 0);
    SortedIsDistinct(keys, r);
    r
  }

  lemma SortedIsDistinct(keys: seq<real>, s: seq<nat>)
    requires StablySorted(keys, s)
    ensures Distinct(s)
  {
    forall i, j | 0 <= i < j < |s| ensures s[i] != s[j] {
      assert Precedes(keys, s[i], s[j]);
    }
  }

  /** Where position `c` ended up in an arrangement. */
  function IndexOf(s: seq<nat>, c: nat): (i: nat)
    requires c in s
    ensures i < |s| && s[i] == c
  {
    if s[0] == c then 0 else 1 + IndexOf(s[1..], c)
  }

  lemma IndexOfAt(s: seq<nat>, i: nat)
    requires Distinct(s) && i < |s|
    ensures IndexOf(s, s[i]) == i
  {
  }

  /** Keys read along a stable sort never decrease. */
  lemma SortedKeysAscend(keys: seq<real>, s: seq<nat>, i: nat, j: nat)
    requires StablySorted(keys, s)
    requires i <= j < |s|
    ensures keys[s[i]] <= keys[s[j]]
  {
    if i < j {
      assert Precedes(keys, s[i], s[j]);
    }
  }
}
