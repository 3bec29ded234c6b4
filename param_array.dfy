/** `_create_param_array`: the flat per-NV drive parameter vector
    `[p1_nv1, p2_nv1, ..., p1_nv2, p2_nv2, ...]`, optionally re-ordered by
    1-based NV labels and optionally restricted to a single NV. */
module ParamArray {
  import opened Wrappers
  import opened Seqs

  /** `[in_value] if in_value else []` extended by `in_list`: a missing or
      zero primary value (both falsy in Python) is dropped. */
  function Concat(inValue: Option<real>, inList: seq<real>): (r: seq<real>)
    ensures inValue.None? || inValue.value == 0.0 ==> r == inList
    ensures inValue.Some? && inValue.value != 0.0 ==> |r| == |inList| + 1 && r[0] == inValue.value && r[1..] == inList
  {
    (if inValue.Some? && inValue.value != 0.0 then [inValue.value] else []) + inList
  }

  /** `sublists(s, k)`: consecutive slices `s[i:i+k]` for `i` in `range(0, len(s), k)`;
      the last one is shorter when `k` does not divide `|s|`. */
  function Sublists(s: seq<real>, k: nat): seq<seq<real>>
    requires k > 0
    decreases |s|
  {
    if |s| == 0 then []
    else if |s| <= k then [s]
    else [s[..k]] + Sublists(s[k..], k)
  }

  /** When `k` divides `|s|`, `sublists` yields `|s| / k` slices of size `k`. */
  lemma {:induction false} SublistsShape(s: seq<real>, k: nat, n: nat)
    requires k > 0 && |s| == n * k
    ensures |Sublists(s, k)| == n
    ensures forall j :: 0 <= j < n ==> |Sublists(s, k)[j]| == k
  {
    if n > 1 {
      assert |s[k..]| == (n - 1) * k;
      SublistsShape(s[k..], k, n - 1);
    }
  }

  /** Element `t` of slice `j` is element `j * k + t` of the vector. */
  lemma {:induction false} SublistsAt(s: seq<real>, k: nat, n: nat, j: nat, t: nat)
    requires k > 0 && |s| == n * k && j < n && t < k
    ensures |Sublists(s, k)| == n && |Sublists(s, k)[j]| == k
    ensures j * k + t < |s| && Sublists(s, k)[j][t] == s[j * k + t]
  {
    SublistsShape(s, k, n);
    MulMono(j + 1, n, k);
    if j > 0 {
      assert |s[k..]| == (n - 1) * k;
      SublistsAt(s[k..], k, n - 1, j - 1, t);
      assert k + (j - 1) * k == j * k;
    }
  }

  /** Cutting a flattening of size-`k` slices into size-`k` slices gives them back. */
  lemma {:induction false} SublistsOfFlatten(cs: seq<seq<real>>, k: nat)
    requires k > 0
    requires forall i :: 0 <= i < |cs| ==> |cs[i]| == k
    ensures Sublists(Flatten(cs), k) == cs
  {
    if cs != [] {
      SublistsOfFlatten(cs[1..], k);
      FlattenLength(cs[1..], k);
      var x := Flatten(cs);
      assert x == cs[0] + Flatten(cs[1..]);
      if |cs| > 1 {
        MulMono(1, |cs| - 1, k);
        assert x[..k] == cs[0];
        assert x[k..] == Flatten(cs[1..]);
        assert Sublists(x, k) == [cs[0]] + cs[1..];
      } else {
        assert cs[1..] == [];
        assert x == cs[0];
        assert Sublists(x, k) == [cs[0]];
      }
    }
  }

  lemma MulMono(a: nat, b: nat, k: nat)
    requires a <= b
    ensures a * k <= b * k
  {
  }

  /** Slot `j * k + t` with `t < k` lies in slice `j`. */
  lemma SlotDiv(j: nat, k: nat, t: nat)
    requires t < k
    ensures (j * k + t) / k == j
  {
    var x := j * k + t;
    var q := x / k;
    assert q * k + x % k == x;
    if q < j {
      MulMono(q + 1, j, k);
    } else if q > j {
      MulMono(j + 1, q, k);
    }
  }

  /** Dividing `n` equal slices of size `k` by `n` gives back `k`. */
  lemma DivExact(n: nat, k: nat)
    requires n > 0
    ensures (n * k) / n == k
  {
    assert n * k == k * n + 0;
    SlotDiv(k, n, 0);
  }

  /** Zeros filling one slice. */
  function Zeros(k: nat): (z: seq<real>)
    ensures |z| == k && forall t :: 0 <= t < k ==> z[t] == 0.0
  {
    seq(k, t => 0.0)
  }

  /** The re-ordering step: cut the vector into `n_nvs` slices, sort the slices
      by their label (`sorted(zip(slices, labels), key=label)`, stable, and
      `zip` stops at the shorter of the two lists) and flatten again.
      `int(len/None)`, a division by zero and a `range` step of zero are the
      Python errors of the degenerate cases. */
  function Reorder(all: seq<real>, nNvs: Option<nat>, labels: seq<int>): Result<seq<real>>
  {
    if nNvs.None? then Err(TypeError)
    else if nNvs.value == 0 then Err(ZeroDivisionError)
    else
      var k := |all| / nNvs.value;
      if k == 0 then Err(ValueError)
      else
        Ok(Flatten(ArrangeByLabel(Sublists(all, k), labels)))
  }

  /** `[p for p, i in sorted(zip(slices, labels), key=lambda tup: tup[1])]`. */
  function ArrangeByLabel(slices: seq<seq<real>>, labels: seq<int>): seq<seq<real>>
  {
    var m := if |slices| <= |labels| then |slices| else |labels|;
    var order := SortIndices(seq(m, i requires 0 <= i < m => labels[i] as real));
    seq(m, j requires 0 <= j < m => slices[order[j]])
  }

  /** The isolation step: every slot outside NV `idxNv`'s slice becomes 0. */
  function Isolate(all: seq<real>, nNvs: nat, idxNv: nat): (r: Result<seq<real>>)
    ensures r.Ok? <==> idxNv < nNvs
    ensures r.Err? ==> r.error == ValueError
    ensures r.Ok? ==> |r.value| == |all|
  {
    if idxNv >= nNvs then Err(ValueError)
    else
      var k := |all| / nNvs;
      var start := idxNv * k;
      Ok(seq(|all|, i requires 0 <= i < |all| => if start <= i < start + k then all[i] else 0.0))
  }

  /** `_create_param_array(in_value, in_list, n_nvs, idx_nv, order_nvs)`, with
      `order_nvs` already parsed from its comma-separated form. */
  function CreateParamArray(inValue: Option<real>, inList: seq<real>, nNvs: Option<nat>,
                            idxNv: Option<nat>, orderNvs: Option<seq<int>>): Result<seq<real>>
  {
    var all := Concat(inValue, inList);
    var ordered :- if orderNvs.Some? then Reorder(all, nNvs, orderNvs.value) else Ok(all);
    if nNvs.Some? && idxNv.Some? then Isolate(ordered, nNvs.value, idxNv.value) else Ok(ordered)
  }

  // ---------------------------------------------------------------------
  // Properties

  /** `labels` names each of the `n` NVs exactly once, with labels `1 .. n`. */
  predicate IsLabelling(labels: seq<int>, n: nat)
  {
    && |labels| == n
    && (forall i :: 0 <= i < n ==> 1 <= labels[i] <= n)
    && (forall i, j :: 0 <= i < j < n ==> labels[i] != labels[j])
  }

  /** Without re-ordering and without a complete (count, index) pair the
      concatenated vector is returned unchanged. */
  lemma PlainVector(inValue: Option<real>, inList: seq<real>, nNvs: Option<nat>, idxNv: Option<nat>)
    requires nNvs.None? || idxNv.None?
    ensures CreateParamArray(inValue, inList, nNvs, idxNv, None) == Ok(Concat(inValue, inList))
  {
  }

  /** A strictly increasing list of `n` integers within `1 .. n` is `1, 2, ..., n`. */
  lemma {:induction false} IncreasingLabelsAreConsecutive(s: seq<int>, n: nat, j: nat)
    requires |s| == n && j < n
    requires forall i :: 0 <= i < n ==> 1 <= s[i] <= n
    requires forall i :: 0 <= i < n - 1 ==> s[i] < s[i + 1]
    ensures s[j] == j + 1
  {
    AtLeastFromStart(s, j);
    AtMostToEnd(s, n, j);
  }

  lemma {:induction false} AtLeastFromStart(s: seq<int>, j: nat)
    requires j < |s|
    requires forall i :: 0 <= i < |s| - 1 ==> s[i] < s[i + 1]
    ensures s[j] >= s[0] + j
  {
    if j > 0 {
      AtLeastFromStart(s, j - 1);
    }
  }

  lemma {:induction false} AtMostToEnd(s: seq<int>, n: nat, j: nat)
    requires |s| == n && j < n
    requires forall i :: 0 <= i < n - 1 ==> s[i] < s[i + 1]
    ensures s[j] <= s[n - 1] - (n - 1 - j)
    decreases n - j
  {
    if j < n - 1 {
      AtMostToEnd(s, n, j + 1);
    }
  }

  /** Sorting a labelling puts the slice labelled `j + 1` at position `j`. */
  lemma SortedLabelling(labels: seq<int>, n: nat, j: nat)
    requires IsLabelling(labels, n) && j < n
    ensures var order := SortIndices(seq(n, i requires 0 <= i < n => labels[i] as real));
            order[j] < n && labels[order[j]] == j + 1
  {
    var keys := seq(n, i requires 0 <= i < n => labels[i] as real);
    var order := SortIndices(keys);
    var s := seq(n, i requires 0 <= i < n => labels[order[i]]);
    forall i | 0 <= i < n - 1 ensures s[i] < s[i + 1] {
      assert Precedes(keys, order[i], order[i + 1]);
      assert order[i] != order[i + 1];
    }
    IncreasingLabelsAreConsecutive(s, n, j);
  }

  /** Re-ordering by a labelling keeps the length and moves slice `i` (NV
      `i + 1` in the input order) to slice position `labels[i] - 1`: "2,1"
      swaps two NVs. */
  lemma {:induction false} ReorderMovesSlices(all: seq<real>, n: nat, k: nat, labels: seq<int>)
    requires n > 0 && k > 0 && |all| == n * k
    requires IsLabelling(labels, n)
    ensures Reorder(all, Some(n), labels).Ok?
    ensures var r := Reorder(all, Some(n), labels).value;
            && |r| == |all|
            && |Sublists(r, k)| == n
            && |Sublists(all, k)| == n
            && forall i :: 0 <= i < n ==> Sublists(r, k)[labels[i] - 1] == Sublists(all, k)[i]
  {
    DivExact(n, k);
    SublistsShape(all, k, n);
    var slices := Sublists(all, k);
    var moved := ArrangeByLabel(slices, labels);
    ArrangeByLabelMoves(slices, labels, n);
    assert Reorder(all, Some(n), labels) == Ok(Flatten(moved));
    FlattenLength(moved, k);
    SublistsOfFlatten(moved, k);
  }

  /** Arranging `n` slices by a labelling puts slice `i` at position `labels[i] - 1`. */
  lemma ArrangeByLabelMoves(slices: seq<seq<real>>, labels: seq<int>, n: nat)
    requires |slices| == n && IsLabelling(labels, n)
    ensures |ArrangeByLabel(slices, labels)| == n
    ensures forall j :: 0 <= j < n ==> ArrangeByLabel(slices, labels)[j] in slices
    ensures forall i :: 0 <= i < n ==> ArrangeByLabel(slices, labels)[labels[i] - 1] == slices[i]
  {
    var keys := seq(n, i requires 0 <= i < n => labels[i] as real);
    var order := SortIndices(keys);
    var moved := ArrangeByLabel(slices, labels);
    assert moved == seq(n, j requires 0 <= j < n => slices[order[j]]);
    forall i | 0 <= i < n
      ensures moved[labels[i] - 1] == slices[i]
    {
      var j := labels[i] - 1;
      SortedLabelling(labels, n, j);
      assert order[j] == i by {
        assert labels[order[j]] == labels[i];
      }
    }
  }

  /** Isolation keeps exactly the slots of NV `idxNv` (slot `i` of a vector of
      `n` slices of size `k` belongs to NV `i / k`) and zeroes the rest; an
      index `idxNv >= n` is rejected. */
  lemma IsolateKeepsOneNv(all: seq<real>, n: nat, k: nat, idxNv: nat)
    requires n > 0 && |all| == n * k
    ensures Isolate(all, n, idxNv).Err? <==> idxNv >= n
    ensures idxNv < n ==>
              |Isolate(all, n, idxNv).value| == |all| &&
              forall i :: 0 <= i < |all| ==>
                Isolate(all, n, idxNv).value[i] == (if i / k == idxNv then all[i] else 0.0)
  {
    if idxNv < n {
      DivExact(n, k);
      forall i | 0 <= i < |all|
        ensures Isolate(all, n, idxNv).value[i] == (if i / k == idxNv then all[i] else 0.0)
      {
        IsolateSlot(all, n, k, idxNv, i);
      }
    }
  }

  lemma {:induction false} IsolateSlot(all: seq<real>, n: nat, k: nat, idxNv: nat, i: nat)
    requires n > 0 && |all| == n * k && idxNv < n && i < |all|
    ensures Isolate(all, n, idxNv).Ok?
    ensures Isolate(all, n, idxNv).value[i] == (if i / k == idxNv then all[i] else 0.0)
  {
    DivExact(n, k);
    assert k > 0;
    SliceOf(i, k, idxNv);
  }

  /** Slot `i` lies in slice `j` exactly when `i / k == j`. */
  lemma SliceOf(i: nat, k: nat, j: nat)
    requires k > 0
    ensures j * k <= i < j * k + k <==> i / k == j
  {
    var q := i / k;
    assert q * k <= i < q * k + k;
    if q < j {
      MulMono(q + 1, j, k);
    } else if q > j {
      MulMono(j + 1, q, k);
    }
  }


  /** Slice view of isolation: slice `idxNv` is kept, every other slice is zeros. */
  lemma IsolateSlices(all: seq<real>, n: nat, k: nat, idxNv: nat)
    requires n > 0 && k > 0 && |all| == n * k && idxNv < n
    ensures Isolate(all, n, idxNv).Ok?
    ensures var r := Isolate(all, n, idxNv).value;
            && |r| == |all|
            && |Sublists(r, k)| == n
            && |Sublists(all, k)| == n
            && forall j :: 0 <= j < n ==>
                 Sublists(r, k)[j] == if j == idxNv then Sublists(all, k)[j] else Zeros(k)
  {
    IsolateKeepsOneNv(all, n, k, idxNv);
    var r := Isolate(all, n, idxNv).value;
    SublistsShape(r, k, n);
    SublistsShape(all, k, n);
    forall j | 0 <= j < n
      ensures Sublists(r, k)[j] == if j == idxNv then Sublists(all, k)[j] else Zeros(k)
    {
      forall t | 0 <= t < k
        ensures Sublists(r, k)[j][t] == (if j == idxNv then Sublists(all, k)[j] else Zeros(k))[t]
      {
        SublistsAt(r, k, n, j, t);
        SublistsAt(all, k, n, j, t);
        SlotDiv(j, k, t);
      }
    }
  }

  /** The full call with a labelling and an index: slice position
      `labels[i] - 1` receives NV `i`'s parameters when it is the isolated
      position, zeros otherwise. */
  lemma ReorderThenIsolate(inValue: Option<real>, inList: seq<real>, n: nat, k: nat,
                           idxNv: nat, labels: seq<int>)
    requires n > 0 && k > 0 && |Concat(inValue, inList)| == n * k
    requires IsLabelling(labels, n) && idxNv < n
    ensures CreateParamArray(inValue, inList, Some(n), Some(idxNv), Some(labels)).Ok?
    ensures var r := CreateParamArray(inValue, inList, Some(n), Some(idxNv), Some(labels)).value;
            var all := Concat(inValue, inList);
            && |r| == |all|
            && |Sublists(r, k)| == n
            && |Sublists(all, k)| == n
            && forall i :: 0 <= i < n ==>
                 Sublists(r, k)[labels[i] - 1] ==
                   if labels[i] - 1 == idxNv then Sublists(all, k)[i] else Zeros(k)
  {
    var all := Concat(inValue, inList);
    ReorderMovesSlices(all, n, k, labels);
    var ordered := Reorder(all, Some(n), labels).value;
    IsolateSlices(ordered, n, k, idxNv);
  }

  /** The worked examples: isolating NV 0 or NV 1 of `[a, b, c, d]` (two
      values per NV), and swapping two single-valued NVs with labels "2,1". */
  lemma IsolationExample(a: real, b: real, c: real, d: real)
    requires a != 0.0
    ensures CreateParamArray(Some(a), [b, c, d], Some(2), Some(0), None) == Ok([a, b, 0.0, 0.0])
    ensures CreateParamArray(Some(a), [b, c, d], Some(2), Some(1), None) == Ok([0.0, 0.0, c, d])
  {
    var all := Concat(Some(a), [b, c, d]);
    assert all == [a, b, c, d];
    assert |all| / 2 == 2;
    var r0 := Isolate(all, 2, 0).value;
    assert r0 == [a, b, 0.0, 0.0];
    var r1 := Isolate(all, 2, 1).value;
    assert r1 == [0.0, 0.0, c, d];
  }

  lemma SwapExample(a: real, b: real)
    ensures CreateParamArray(None, [a, b], Some(2), None, Some([2, 1])) == Ok([b, a])
  {
    assert Concat(None, [a, b]) == [a, b];
    SwapReorder(a, b);
  }

  /** Labelling two one-slot NVs `[2, 1]` swaps them. */
  lemma SwapReorder(a: real, b: real)
    ensures Reorder([a, b], Some(2), [2, 1]) == Ok([b, a])
  {
    var all := [a, b];
    ReorderMovesSlices(all, 2, 1, [2, 1]);
    var r := Reorder(all, Some(2), [2, 1]).value;
    assert Sublists(all, 1) == [[a], [b]] by {
      assert all[..1] == [a] && all[1..] == [b];
    }
    var labels := [2, 1];
    assert Sublists(r, 1)[labels[0] - 1] == [a];
    assert Sublists(r, 1)[labels[1] - 1] == [b];
    SublistsAt(r, 1, 2, 0, 0);
    SublistsAt(r, 1, 2, 1, 0);
    assert r == [b, a];
  }
}
