/** `_get_multiple_mw_mult_length_element`: microwave tones that start
    together but last for different durations are turned into a gap-free
    list of constant-amplitude segments (`create_pulse_partition`), after
    NaN-phase channels are silenced (`nan_phase_2_zero_ampl`) and swept
    zero-length channels are given a tiny placeholder length
    (`sanitize_lengths`). */
module Partition {
  import opened Wrappers
  import opened Seqs
  import opened Elements

  /** The `1e-15` placeholder length of a zero-length channel whose length is swept. */
  const LengthPlaceholder: real := 0.000000000000001

  /** One segment of the partition: its duration and one amplitude per
      channel, in the caller's channel order. */
  datatype Block = Block(length: real, amps: seq<real>)

  function Lengths(blocks: seq<Block>): (r: seq<real>)
    ensures |r| == |blocks| && forall i :: 0 <= i < |blocks| ==> r[i] == blocks[i].length
  {
    seq(|blocks|, i requires 0 <= i < |blocks| => blocks[i].length)
  }

  /** `np.sum([p[0] for p in partition_blocks])`. */
  function SumLengths(blocks: seq<Block>): real
  {
    Sum(Lengths(blocks))
  }

  lemma SumLengthsCons(b: Block, rest: seq<Block>)
    ensures SumLengths([b] + rest) == b.length + SumLengths(rest)
  {
    SumLengthsAppend([b], rest);
    assert Lengths([b]) == [b.length];
    SumSingle(b.length);
  }

  lemma SumLengthsAppend(a: seq<Block>, b: seq<Block>)
    ensures SumLengths(a + b) == SumLengths(a) + SumLengths(b)
  {
    assert Lengths(a + b) == Lengths(a) + Lengths(b);
    SumAppend(Lengths(a), Lengths(b));
  }

  // ---------------------------------------------------------------------
  // create_pulse_partition, as a specification

  /** The amplitude vector of the segment emitted at step `k` of the walk over
      the channels sorted by length: a channel whose rank in that order is at
      least `k` is still on and carries its amplitude, the others carry 0. */
  function StepAmps(amps: seq<real>, order: seq<nat>, k: nat): seq<real>
    requires IsArrangement(order, |amps|)
  {
    seq(|amps|, c requires 0 <= c < |amps| => if k <= IndexOf(order, c) then amps[c] else 0.0)
  }

  /** Steps `k ..` of the walk, `t` being the duration emitted so far: the
      segment of step `k` lasts the `k`-th shortest length minus `t`, and only
      a segment of positive duration is emitted. */
  function PartitionFrom(lengths: seq<real>, amps: seq<real>, order: seq<nat>, k: nat, t: real): (r: seq<Block>)
    requires |lengths| == |amps| && IsArrangement(order, |amps|) && k <= |order|
    decreases |order| - k
    ensures |r| <= |order| - k
    ensures forall i :: 0 <= i < |r| ==> r[i].length > 0.0 && |r[i].amps| == |amps|
  {
    if k == |order| then []
    else
      var part := lengths[order[k]] - t;
      if part > 0.0 then
        [Block(part, StepAmps(amps, order, k))] + PartitionFrom(lengths, amps, order, k + 1, t + part)
      else
        PartitionFrom(lengths, amps, order, k + 1, t)
  }

  /** The partition of channels with durations `lengths` and amplitudes `amps`. */
  function PulsePartition(lengths: seq<real>, amps: seq<real>): (r: seq<Block>)
    requires |lengths| == |amps|
    ensures |r| <= |lengths|
    ensures forall i :: 0 <= i < |r| ==> r[i].length > 0.0 && |r[i].amps| == |amps|
  {
    PartitionFrom(lengths, amps, SortIndices(lengths), 0, 0.0)
  }

  // ---------------------------------------------------------------------
  // create_pulse_partition, as the source computes it

  /** The body of one step of `create_pulse_partition`: channels whose rank in
      the length order is at least `idxPart` keep their amplitude, the others
      are zeroed, and the vector is put back into the caller's channel order. */
  method SegmentAmps(amps: seq<real>, order: seq<nat>, idxPart: nat) returns (segment: seq<real>)
    requires IsArrangement(order, |amps|)
    ensures segment == StepAmps(amps, order, idxPart)
  {
    var nCh := |amps|;
    var ampsPart := new real[nCh](_ => 0.0);
    var chsPart := new nat[nCh](_ => 0);
    var idxCh := 0;
    while idxCh < nCh
      invariant 0 <= idxCh <= nCh
      invariant forall j :: 0 <= j < idxCh ==> chsPart[j] == order[j]
      invariant forall j :: 0 <= j < idxCh ==> ampsPart[j] == if idxPart <= j then amps[order[j]] else 0.0
      invariant forall j :: idxCh <= j < nCh ==> ampsPart[j] == 0.0
    {
      var ch := order[idxCh];
      chsPart[idxCh] := ch;
      if idxPart <= idxCh {
        ampsPart[idxCh] := amps[ch];
      }
      idxCh := idxCh + 1;
    }
    // restore the original channel order: chs_part is a permutation of the
    // channels, so sorting by it puts the amplitude of channel c at slot c
    var restored := new real[nCh](_ => 0.0);
    var j := 0;
    while j < nCh
      invariant 0 <= j <= nCh
      invariant forall i :: 0 <= i < nCh ==> chsPart[i] == order[i]
      invariant forall i :: 0 <= i < nCh ==> ampsPart[i] == if idxPart <= i then amps[order[i]] else 0.0
      invariant forall i :: 0 <= i < j ==> restored[chsPart[i]] == ampsPart[i]
    {
      restored[chsPart[j]] := ampsPart[j];
      j := j + 1;
    }
    forall c | 0 <= c < nCh
      ensures restored[c] == StepAmps(amps, order, idxPart)[c]
    {
      var r := IndexOf(order, c);
      assert restored[chsPart[r]] == ampsPart[r];
    }
    segment := restored[..];
  }

  /** Walks the channels in ascending order of length, fills a fresh amplitude
      vector for each step, restores the caller's channel order and appends
      the segment when its duration is positive. */
  method CreatePulsePartition(lengths: seq<real>, amps: seq<real>) returns (blocks: seq<Block>)
    requires |lengths| == |amps|
    ensures blocks == PulsePartition(lengths, amps)
  {
    var nCh := |lengths|;
    // sorted(zip(lengths, amps, range(n_ch)), key=lambda x: x[0])
    var order := SortIndices(lengths);
    blocks := [];
    var idxPart := 0;
    while idxPart < nCh
      invariant 0 <= idxPart <= nCh
      invariant blocks + PartitionFrom(lengths, amps, order, idxPart, SumLengths(blocks)) == PulsePartition(lengths, amps)
    {
      var tSoFar := SumLengths(blocks);
      var lengthPart := lengths[order[idxPart]] - tSoFar;
      var segment := SegmentAmps(amps, order, idxPart);
      PartitionFromUnfold(lengths, amps, order, idxPart, tSoFar);
      if lengthPart > 0.0 {
        EmitStep(lengths, amps, order, idxPart, blocks, tSoFar);
        SumLengthsSnoc(blocks, Block(lengthPart, segment));
        blocks := blocks + [Block(lengthPart, segment)];
      }
      idxPart := idxPart + 1;
    }
  }

  /** The first step of `PartitionFrom`, unfolded once. */
  lemma PartitionFromUnfold(lengths: seq<real>, amps: seq<real>, order: seq<nat>, k: nat, t: real)
    requires |lengths| == |amps| && IsArrangement(order, |amps|) && k < |order|
    ensures var part := lengths[order[k]] - t;
            PartitionFrom(lengths, amps, order, k, t) ==
              if part > 0.0 then [Block(part, StepAmps(amps, order, k))] + PartitionFrom(lengths, amps, order, k + 1, t + part)
              else PartitionFrom(lengths, amps, order, k + 1, t)
  {
  }

  /** A step whose segment lasts moves it from the part still to be emitted
      onto the emitted blocks, and advances the emitted time by its duration. */
  lemma EmitStep(lengths: seq<real>, amps: seq<real>, order: seq<nat>, k: nat, blocks: seq<Block>, t: real)
    requires |lengths| == |amps| && IsArrangement(order, |amps|) && k < |order|
    requires lengths[order[k]] - t > 0.0
    ensures var part := lengths[order[k]] - t;
            blocks + PartitionFrom(lengths, amps, order, k, t) ==
              (blocks + [Block(part, StepAmps(amps, order, k))]) + PartitionFrom(lengths, amps, order, k + 1, t + part)
  {
    var part := lengths[order[k]] - t;
    PartitionFromUnfold(lengths, amps, order, k, t);
    AppendAssoc(blocks, [Block(part, StepAmps(amps, order, k))], PartitionFrom(lengths, amps, order, k + 1, t + part));
  }

  lemma SumLengthsSnoc(blocks: seq<Block>, b: Block)
    ensures SumLengths(blocks + [b]) == SumLengths(blocks) + b.length
  {
    SumLengthsAppend(blocks, [b]);
    assert Lengths([b]) == [b.length];
    SumSingle(b.length);
  }

  lemma AppendAssoc(a: seq<Block>, b: seq<Block>, c: seq<Block>)
    ensures a + (b + c) == (a + b) + c
  {
  }

  // ---------------------------------------------------------------------
  // What the partition guarantees

  /** Channel `c` carries amplitude `a` in the first `p` segments and 0 in all
      later ones, and those `p` segments last `len` together. */
  predicate CarriesFor(blocks: seq<Block>, c: nat, a: real, p: nat, len: real)
  {
    && p <= |blocks|
    && (forall i :: 0 <= i < |blocks| ==> c < |blocks[i].amps|)
    && (forall i :: 0 <= i < p ==> blocks[i].amps[c] == a)
    && (forall i :: p <= i < |blocks| ==> blocks[i].amps[c] == 0.0)
    && SumLengths(blocks[..p]) == len
  }

  /** Channel `c` carries amplitude `a` in some prefix lasting `len` and 0 afterwards. */
  ghost predicate CarriesPrefix(blocks: seq<Block>, c: nat, a: real, len: real)
  {
    exists p :: CarriesFor(blocks, c, a, p, len)
  }

  predicate NonNegative(s: seq<real>)
  {
    forall i :: 0 <= i < |s| ==> s[i] >= 0.0
  }

  /** The duration emitted before step `k` when the lengths are non-negative:
      the `(k-1)`-th shortest length. */
  function EmittedBefore(lengths: seq<real>, order: seq<nat>, k: nat): real
    requires IsArrangement(order, |lengths|) && k <= |order|
  {
    if k == 0 then 0.0 else lengths[order[k - 1]]
  }

  /** What channel `c` still has to play once `k` steps have been emitted. */
  function Remaining(lengths: seq<real>, order: seq<nat>, k: nat, c: nat): real
    requires IsArrangement(order, |lengths|) && k <= |order| && c < |lengths|
  {
    lengths[c] - EmittedBefore(lengths, order, k)
  }

  /** One step of the walk: the step's duration is never negative, and after
      the step exactly the `k`-th shortest length has been emitted. */
  lemma StepUnfold(lengths: seq<real>, amps: seq<real>, order: seq<nat>, k: nat)
    requires |lengths| == |amps| && IsArrangement(order, |amps|) && StablySorted(lengths, order)
    requires NonNegative(lengths) && k < |order|
    ensures var t := EmittedBefore(lengths, order, k);
            var part := lengths[order[k]] - t;
            var rest := PartitionFrom(lengths, amps, order, k + 1, EmittedBefore(lengths, order, k + 1));
            && part >= 0.0
            && PartitionFrom(lengths, amps, order, k, t) ==
                 if part > 0.0 then [Block(part, StepAmps(amps, order, k))] + rest else rest
  {
    if k > 0 {
      SortedKeysAscend(lengths, order, k - 1, k);
    }
  }

  /** Channel `c` is off in every segment. */
  predicate Silent(blocks: seq<Block>, c: nat)
  {
    forall i :: 0 <= i < |blocks| ==> c < |blocks[i].amps| && blocks[i].amps[c] == 0.0
  }

  lemma SumSingle(x: real)
    ensures Sum([x]) == x
  {
    assert [x][1..] == [];
  }

  lemma ConsSilent(b: Block, rest: seq<Block>, c: nat)
    requires c < |b.amps| && b.amps[c] == 0.0 && Silent(rest, c)
    ensures Silent([b] + rest, c)
  {
    assert forall i :: 1 <= i < |rest| + 1 ==> ([b] + rest)[i] == rest[i - 1];
  }

  lemma SilentCarries(blocks: seq<Block>, c: nat, a: real)
    requires Silent(blocks, c)
    ensures CarriesFor(blocks, c, a, 0, 0.0)
  {
    assert blocks[..0] == [];
  }

  lemma ConsCarries(b: Block, rest: seq<Block>, c: nat, a: real, p: nat, len: real)
    requires c < |b.amps| && b.amps[c] == a && CarriesFor(rest, c, a, p, len)
    ensures CarriesFor([b] + rest, c, a, p + 1, b.length + len)
  {
    var out := [b] + rest;
    assert forall i :: 1 <= i < |out| ==> out[i] == rest[i - 1];
    assert out[..p + 1] == [b] + rest[..p];
    SumLengthsAppend([b], rest[..p]);
    assert Lengths([b]) == [b.length];
    SumSingle(b.length);
  }

  /** One step of the walk seen from a channel that is still on: the segment
      emitted at this step (if any) carries the channel's amplitude. */
  lemma CarriesStep(out: seq<Block>, b: Block, rest: seq<Block>, c: nat, a: real, len: real, lenRest: real)
    requires out == if b.length > 0.0 then [b] + rest else rest
    requires b.length >= 0.0 && c < |b.amps| && b.amps[c] == a && lenRest == len - b.length
    requires (exists p :: CarriesFor(rest, c, a, p, lenRest)) || (Silent(rest, c) && len == b.length)
    ensures exists p :: CarriesFor(out, c, a, p, len)
  {
    var p: nat;
    if Silent(rest, c) && len == b.length {
      SilentCarries(rest, c, a);
      p := 0;
    } else {
      p :| CarriesFor(rest, c, a, p, len - b.length);
    }
    if b.length > 0.0 {
      ConsCarries(b, rest, c, a, p, len - b.length);
      assert CarriesFor(out, c, a, p + 1, len);
    } else {
      assert CarriesFor(out, c, a, p, len);
    }
  }

  lemma {:induction false} CarriesFrom(lengths: seq<real>, amps: seq<real>, order: seq<nat>, k: nat, c: nat)
    requires |lengths| == |amps| && IsArrangement(order, |amps|) && StablySorted(lengths, order)
    requires NonNegative(lengths) && k <= |order| && c < |amps|
    decreases |order| - k
    ensures var out := PartitionFrom(lengths, amps, order, k, EmittedBefore(lengths, order, k));
            && (IndexOf(order, c) < k ==> Silent(out, c))
            && (IndexOf(order, c) >= k ==> exists p :: CarriesFor(out, c, amps[c], p, Remaining(lengths, order, k, c)))
  {
    if k < |order| {
      CarriesFrom(lengths, amps, order, k + 1, c);
      CarriesFromStep(lengths, amps, order, k, c);
    }
  }

  /** The step of `CarriesFrom`: what holds from step `k + 1` on holds from
      step `k` on. */
  lemma CarriesFromStep(lengths: seq<real>, amps: seq<real>, order: seq<nat>, k: nat, c: nat)
    requires |lengths| == |amps| && IsArrangement(order, |amps|) && StablySorted(lengths, order)
    requires NonNegative(lengths) && k < |order| && c < |amps|
    requires IndexOf(order, c) < k + 1 ==>
               Silent(PartitionFrom(lengths, amps, order, k + 1, EmittedBefore(lengths, order, k + 1)), c)
    requires IndexOf(order, c) >= k + 1 ==>
               CarriesPrefix(PartitionFrom(lengths, amps, order, k + 1, EmittedBefore(lengths, order, k + 1)),
                             c, amps[c], Remaining(lengths, order, k + 1, c))
    ensures var out := PartitionFrom(lengths, amps, order, k, EmittedBefore(lengths, order, k));
            && (IndexOf(order, c) < k ==> Silent(out, c))
            && (IndexOf(order, c) >= k ==> exists p :: CarriesFor(out, c, amps[c], p, Remaining(lengths, order, k, c)))
  {
    var r := IndexOf(order, c);
    StepUnfold(lengths, amps, order, k);
    var t := EmittedBefore(lengths, order, k);
    var out := PartitionFrom(lengths, amps, order, k, t);
    var part := lengths[order[k]] - t;
    var rest := PartitionFrom(lengths, amps, order, k + 1, EmittedBefore(lengths, order, k + 1));
    var b := Block(part, StepAmps(amps, order, k));
    assert Remaining(lengths, order, k + 1, c) == Remaining(lengths, order, k, c) - part;
    if r < k {
      if part > 0.0 {
        ConsSilent(b, rest, c);
      }
    } else {
      assert r == k ==> Remaining(lengths, order, k, c) == part;
      CarriesStep(out, b, rest, c, amps[c], Remaining(lengths, order, k, c), Remaining(lengths, order, k + 1, c));
    }
  }


  /** Partition completeness: with non-negative lengths every channel carries
      its own amplitude in a prefix of the segments and 0 afterwards, and the
      durations of that prefix add up exactly to the channel's length. */
  lemma PartitionCompleteness(lengths: seq<real>, amps: seq<real>, c: nat)
    requires |lengths| == |amps| && NonNegative(lengths) && c < |lengths|
    ensures exists p :: CarriesFor(PulsePartition(lengths, amps), c, amps[c], p, lengths[c])
  {
    var order := SortIndices(lengths);
    CarriesFrom(lengths, amps, order, 0, c);
    var p: nat :| CarriesFor(PulsePartition(lengths, amps), c, amps[c], p, Remaining(lengths, order, 0, c));
    assert CarriesFor(PulsePartition(lengths, amps), c, amps[c], p, lengths[c]);
  }

  /** A channel of length 0 is silent in every segment. */
  lemma ZeroLengthChannelIsSilent(lengths: seq<real>, amps: seq<real>, c: nat)
    requires |lengths| == |amps| && NonNegative(lengths) && c < |lengths| && lengths[c] == 0.0
    ensures Silent(PulsePartition(lengths, amps), c)
  {
    var blocks := PulsePartition(lengths, amps);
    PartitionCompleteness(lengths, amps, c);
    var p: nat :| CarriesFor(blocks, c, amps[c], p, lengths[c]);
    if p > 0 {
      PositivePrefix(blocks, p);
    }
  }

  /** A non-empty prefix of segments has a positive duration. */
  lemma {:induction false} PositivePrefix(blocks: seq<Block>, p: nat)
    requires 0 < p <= |blocks|
    requires forall i :: 0 <= i < |blocks| ==> blocks[i].length > 0.0
    ensures SumLengths(blocks[..p]) > 0.0
  {
    if p > 1 {
      PositivePrefix(blocks, p - 1);
      assert blocks[..p] == blocks[..p - 1] + [blocks[p - 1]];
      SumLengthsAppend(blocks[..p - 1], [blocks[p - 1]]);
      assert Lengths([blocks[p - 1]]) == [blocks[p - 1].length];
      SumSingle(blocks[p - 1].length);
    } else {
      assert Lengths(blocks[..1]) == [blocks[0].length];
      SumSingle(blocks[0].length);
    }
  }

  lemma {:induction false} TotalFrom(lengths: seq<real>, amps: seq<real>, order: seq<nat>, k: nat)
    requires |lengths| == |amps| && IsArrangement(order, |amps|) && StablySorted(lengths, order)
    requires NonNegative(lengths) && k < |order|
    decreases |order| - k
    ensures SumLengths(PartitionFrom(lengths, amps, order, k, EmittedBefore(lengths, order, k)))
              == lengths[order[|order| - 1]] - EmittedBefore(lengths, order, k)
  {
    var part := lengths[order[k]] - EmittedBefore(lengths, order, k);
    var rest := PartitionFrom(lengths, amps, order, k + 1, EmittedBefore(lengths, order, k + 1));
    StepUnfold(lengths, amps, order, k);
    assert SumLengths(rest) == lengths[order[|order| - 1]] - EmittedBefore(lengths, order, k + 1) by {
      if k + 1 < |order| {
        TotalFrom(lengths, amps, order, k + 1);
      } else {
        assert Lengths(rest) == [];
      }
    }
    if part > 0.0 {
      SumLengthsCons(Block(part, StepAmps(amps, order, k)), rest);
    }
  }

  /** The segments together last exactly as long as the longest channel. */
  lemma PartitionTotal(lengths: seq<real>, amps: seq<real>)
    requires |lengths| == |amps| && NonNegative(lengths) && |lengths| > 0
    ensures SumLengths(PulsePartition(lengths, amps)) == Max(lengths)
  {
    var order := SortIndices(lengths);
    var n := |lengths|;
    TotalFrom(lengths, amps, order, 0);
    var last := lengths[order[n - 1]];
    var m := Max(lengths);
    var c :| 0 <= c < n && lengths[c] == m;
    var r := IndexOf(order, c);
    SortedKeysAscend(lengths, order, r, n - 1);
    assert last <= m;
  }

  /** The distinct lengths above `t` among the channels of rank `k` onward. */
  function LengthsAbove(lengths: seq<real>, order: seq<nat>, k: nat, t: real): set<real>
    requires IsArrangement(order, |lengths|) && k <= |order|
  {
    set j | k <= j < |order| && lengths[order[j]] > t :: lengths[order[j]]
  }

  /** The distinct positive channel lengths. */
  function PositiveLengths(lengths: seq<real>): set<real>
  {
    set c | 0 <= c < |lengths| && lengths[c] > 0.0 :: lengths[c]
  }

  /** From step `k` on, with `t` emitted, the walk emits one segment per
      distinct remaining length above `t`. */
  lemma {:induction false} PartitionFromCount(lengths: seq<real>, amps: seq<real>, order: seq<nat>, k: nat, t: real)
    requires |lengths| == |amps| && IsArrangement(order, |amps|) && StablySorted(lengths, order)
    requires k <= |order|
    decreases |order| - k
    ensures |PartitionFrom(lengths, amps, order, k, t)| == |LengthsAbove(lengths, order, k, t)|
  {
    if k == |order| {
      assert LengthsAbove(lengths, order, k, t) == {};
    } else {
      var v := lengths[order[k]];
      PartitionFromUnfold(lengths, amps, order, k, t);
      if v - t > 0.0 {
        PartitionFromCount(lengths, amps, order, k + 1, t + (v - t));
        assert t + (v - t) == v;
        AboveSplit(lengths, order, k, t);
      } else {
        PartitionFromCount(lengths, amps, order, k + 1, t);
        assert LengthsAbove(lengths, order, k, t) == LengthsAbove(lengths, order, k + 1, t) by {
          forall x | x in LengthsAbove(lengths, order, k, t)
            ensures x in LengthsAbove(lengths, order, k + 1, t)
          {
            var j :| k <= j < |order| && lengths[order[j]] > t && x == lengths[order[j]];
            assert j != k;
          }
        }
      }
    }
  }

  /** When the length of rank `k` lies above `t`, the lengths above `t` from
      rank `k` on are that length and the (sorted, hence larger) ones above it. */
  lemma AboveSplit(lengths: seq<real>, order: seq<nat>, k: nat, t: real)
    requires IsArrangement(order, |lengths|) && StablySorted(lengths, order)
    requires k < |order| && lengths[order[k]] > t
    ensures var v := lengths[order[k]];
            |LengthsAbove(lengths, order, k, t)| == 1 + |LengthsAbove(lengths, order, k + 1, v)|
  {
    var v := lengths[order[k]];
    var above := LengthsAbove(lengths, order, k + 1, v);
    forall x | x in LengthsAbove(lengths, order, k, t)
      ensures x in {v} + above
    {
      var j :| k <= j < |order| && lengths[order[j]] > t && x == lengths[order[j]];
      SortedKeysAscend(lengths, order, k, j);
    }
    assert LengthsAbove(lengths, order, k, t) == {v} + above;
    assert v !in above;
  }

  /** `create_pulse_partition` emits exactly one segment per distinct
      positive channel length: channels of equal length share their last
      segment, and no segment is empty. */
  lemma PartitionSegmentCount(lengths: seq<real>, amps: seq<real>)
    requires |lengths| == |amps|
    ensures |PulsePartition(lengths, amps)| == |PositiveLengths(lengths)|
  {
    var order := SortIndices(lengths);
    PartitionFromCount(lengths, amps, order, 0, 0.0);
    forall x | x in PositiveLengths(lengths)
      ensures x in LengthsAbove(lengths, order, 0, 0.0)
    {
      var c :| 0 <= c < |lengths| && lengths[c] > 0.0 && x == lengths[c];
      var j := IndexOf(order, c);
      assert lengths[order[j]] == x;
    }
    assert LengthsAbove(lengths, order, 0, 0.0) == PositiveLengths(lengths);
  }

  /** `create_pulse_partition([50, 30], [0.1, 0.2])`: 30 units with both
      channels on, then 20 units with only the first one. */
  lemma TwoChannelExample()
    ensures PulsePartition([50.0, 30.0], [0.1, 0.2]) ==
              [Block(30.0, [0.1, 0.2]), Block(20.0, [0.1, 0.0])]
  {
    var lengths := [50.0, 30.0];
    var amps := [0.1, 0.2];
    var order := SortIndices(lengths);
    assert SortFrom(lengths, 1) == [1];
    assert order == [1, 0];
    assert IndexOf(order, 0) == 1 && IndexOf(order, 1) == 0;
    assert StepAmps(amps, order, 0) == [0.1, 0.2];
    assert StepAmps(amps, order, 1) == [0.1, 0.0];
    assert PartitionFrom(lengths, amps, order, 2, 50.0) == [];
    assert PartitionFrom(lengths, amps, order, 1, 30.0) == [Block(20.0, [0.1, 0.0])];
  }

  /** `create_pulse_partition([100, 10, 10], [0.1, 0.2, 0.3])`: the two short
      channels tie and produce a single 10-unit segment with every channel
      on, followed by 90 units of the long one alone. */
  lemma ThreeChannelExample()
    ensures PulsePartition([100.0, 10.0, 10.0], [0.1, 0.2, 0.3]) ==
              [Block(10.0, [0.1, 0.2, 0.3]), Block(90.0, [0.1, 0.0, 0.0])]
  {
    var lengths := [100.0, 10.0, 10.0];
    var amps := [0.1, 0.2, 0.3];
    ThreeChannelOrder();
    var order: seq<nat> := [1, 2, 0];
    assert StepAmps(amps, order, 0) == amps;
    ThreeChannelTail();
  }

  /** The stable sort of `[100, 10, 10]` keeps the tied channels in order. */
  lemma ThreeChannelOrder()
    ensures SortIndices([100.0, 10.0, 10.0]) == [1, 2, 0]
  {
    var lengths := [100.0, 10.0, 10.0];
    assert SortFrom(lengths, 2) == [2];
    assert SortFrom(lengths, 1) == [1, 2];
    assert Insert(lengths, 0, [2]) == [2, 0];
  }

  /** After the tied channels' segment, a zero-length step and the long
      channel's 90 units remain. */
  lemma ThreeChannelTail()
    ensures PartitionFrom([100.0, 10.0, 10.0], [0.1, 0.2, 0.3], [1, 2, 0], 1, 10.0) == [Block(90.0, [0.1, 0.0, 0.0])]
  {
    var lengths := [100.0, 10.0, 10.0];
    var amps := [0.1, 0.2, 0.3];
    var order: seq<nat> := [1, 2, 0];
    assert IndexOf(order, 0) == 2 && IndexOf(order, 1) == 0 && IndexOf(order, 2) == 1;
    assert StepAmps(amps, order, 2) == [0.1, 0.0, 0.0];
    assert PartitionFrom(lengths, amps, order, 3, 100.0) == [];
    assert PartitionFrom(lengths, amps, order, 2, 10.0) == [Block(90.0, [0.1, 0.0, 0.0])];
  }


  // ---------------------------------------------------------------------
  // nan_phase_2_zero_ampl and sanitize_lengths

  /** Amplitudes after `nan_phase_2_zero_ampl`. */
  function ZeroNanAmps(amps: seq<real>, phases: seq<Phase>): seq<real>
    requires |amps| == |phases|
  {
    seq(|amps|, c requires 0 <= c < |amps| => if phases[c].Nan? then 0.0 else amps[c])
  }

  /** Lengths after `sanitize_lengths`. */
  function SanitizedLengths(lengths: seq<real>, incs: seq<real>): seq<real>
    requires |lengths| == |incs|
  {
    seq(|lengths|, c requires 0 <= c < |lengths| =>
      if lengths[c] == 0.0 && incs[c] != 0.0 then LengthPlaceholder else lengths[c])
  }

  /** Silences, in place, every channel whose phase is NaN. */
  method NanPhaseToZeroAmpl(phases: seq<Phase>, amps: array<real>)
    requires |phases| == amps.Length
    modifies amps
    ensures amps[..] == ZeroNanAmps(old(amps[..]), phases)
  {
    var idx := 0;
    while idx < |phases|
      invariant 0 <= idx <= |phases|
      invariant forall c :: 0 <= c < idx ==> amps[c] == ZeroNanAmps(old(amps[..]), phases)[c]
      invariant forall c :: idx <= c < amps.Length ==> amps[c] == old(amps[c])
    {
      if phases[idx].Nan? {
        amps[idx] := 0.0;
      }
      idx := idx + 1;
    }
  }

  /** Gives, in place, every zero-length channel with a nonzero increment the
      placeholder length, so that the partition does not drop it. */
  method SanitizeLengths(lengths: array<real>, increments: seq<real>)
    requires |increments| == lengths.Length
    modifies lengths
    ensures lengths[..] == SanitizedLengths(old(lengths[..]), increments)
  {
    var idx := 0;
    while idx < lengths.Length
      invariant 0 <= idx <= lengths.Length
      invariant forall c :: 0 <= c < idx ==> lengths[c] == SanitizedLengths(old(lengths[..]), increments)[c]
      invariant forall c :: idx <= c < lengths.Length ==> lengths[c] == old(lengths[c])
    {
      if lengths[idx] == 0.0 && increments[idx] != 0.0 {
        lengths[idx] := LengthPlaceholder;
      }
      idx := idx + 1;
    }
  }

  // ---------------------------------------------------------------------
  // _get_multiple_mw_mult_length_element

  /** The `increments` argument: one number for all channels, or one per channel. */
  datatype IncrementArg = Scalar(x: real) | PerChannel(xs: seq<real>)

  /** The argument checks: a zero scalar increment is expanded to one zero per
      channel, a nonzero scalar cannot be measured with `len` (TypeError),
      unequal increments are not supported, and all per-channel lists must
      have the same length. Yields the per-channel increments. */
  function CheckedIncrements(lengths: seq<real>, increments: IncrementArg, amps: seq<real>,
                             freqs: seq<real>, phases: seq<Phase>): (r: Result<seq<real>>)
    ensures r.Ok? ==> && |r.value| == |lengths| && |amps| == |lengths| && |freqs| == |lengths|
                      && |phases| == |lengths| && AllEqual(r.value)
    ensures r.Err? ==> r.error == TypeError || r.error == NotImplementedError || r.error == ValueError
  {
    var incs :- match increments
      case Scalar(x) => if x == 0.0 then Ok(seq(|lengths|, _ => 0.0)) else Err(TypeError)
      case PerChannel(xs) => Ok(xs);
    if !AllEqual(incs) then Err(NotImplementedError)
    else if !(|incs| == |lengths| && |amps| == |lengths| && |freqs| == |lengths| && |phases| == |lengths|) then
      Err(ValueError)
    else Ok(incs)
  }

  /** Turns segments into microwave elements: only the first one is swept. */
  function SegmentsToElements(blocks: seq<Block>, inc: real, freqs: seq<real>, phases: seq<Phase>): seq<Element>
  {
    seq(|blocks|, i requires 0 <= i < |blocks| =>
      MwElement(blocks[i].length, if i == 0 then inc else 0.0, blocks[i].amps, freqs, phases))
  }

  /** The element list `_get_multiple_mw_mult_length_element` returns. */
  function MultLengthElements(lengths: seq<real>, increments: IncrementArg, amps: seq<real>,
                              freqs: seq<real>, phases: seq<Phase>): (r: Result<seq<Element>>)
    ensures r.Ok? <==> CheckedIncrements(lengths, increments, amps, freqs, phases).Ok?
    ensures r.Err? ==> r.error == CheckedIncrements(lengths, increments, amps, freqs, phases).error
  {
    var incs :- CheckedIncrements(lengths, increments, amps, freqs, phases);
    var blocks := PulsePartition(SanitizedLengths(lengths, incs), ZeroNanAmps(amps, phases));
    Ok(SegmentsToElements(blocks, if incs == [] then 0.0 else incs[0], freqs, phases))
  }

  /** Checks the arguments, silences NaN-phase channels and sanitizes the
      lengths (both in the caller's arrays, as the source does), partitions
      the channels and emits one microwave element per segment. */
  method MultipleMwMultLengthElement(lengths: array<real>, increments: IncrementArg, amps: array<real>,
                                     freqs: seq<real>, phases: seq<Phase>) returns (r: Result<seq<Element>>)
    requires lengths != amps
    modifies lengths, amps
    ensures r == MultLengthElements(old(lengths[..]), increments, old(amps[..]), freqs, phases)
    ensures r.Err? ==> lengths[..] == old(lengths[..]) && amps[..] == old(amps[..])
    ensures r.Ok? ==>
              var incs := CheckedIncrements(old(lengths[..]), increments, old(amps[..]), freqs, phases).value;
              && lengths[..] == SanitizedLengths(old(lengths[..]), incs)
              && amps[..] == ZeroNanAmps(old(amps[..]), phases)
  {
    var checked := CheckedIncrements(lengths[..], increments, amps[..], freqs, phases);
    if checked.Err? {
      return Err(checked.error);
    }
    var incs := checked.value;
    NanPhaseToZeroAmpl(phases, amps);
    SanitizeLengths(lengths, incs);
    var partBlocks := CreatePulsePartition(lengths[..], amps[..]);
    var blocks: seq<Element> := [];
    var idx := 0;
    while idx < |partBlocks|
      invariant 0 <= idx <= |partBlocks|
      invariant blocks == SegmentsToElements(partBlocks[..idx], if incs == [] then 0.0 else incs[0], freqs, phases)
    {
      var increment := if idx == 0 then incs[0] else 0.0;
      blocks := blocks + [MwElement(partBlocks[idx].length, increment, partBlocks[idx].amps, freqs, phases)];
      idx := idx + 1;
    }
    assert partBlocks[..idx] == partBlocks;
    return Ok(blocks);
  }

  // ---------------------------------------------------------------------
  // What the element list guarantees

  /** The segment view of an element list: duration and amplitudes. */
  function AsBlocks(els: seq<Element>): seq<Block>
  {
    seq(|els|, i requires 0 <= i < |els| =>
      Block(els[i].initLength, if els[i].MwElement? then els[i].amps else []))
  }

  /** The arguments are accepted exactly when a scalar increment is zero, the
      per-channel increments are all equal, and every per-channel list has
      one entry per channel; each rejection raises its own exception. */
  lemma MultLengthAccepts(lengths: seq<real>, increments: IncrementArg, amps: seq<real>,
                          freqs: seq<real>, phases: seq<Phase>)
    ensures var r := MultLengthElements(lengths, increments, amps, freqs, phases);
            && (r.Ok? <==> match increments
                  case Scalar(x) => x == 0.0 && |amps| == |lengths| && |freqs| == |lengths| && |phases| == |lengths|
                  case PerChannel(xs) => AllEqual(xs) && |xs| == |lengths| && |amps| == |lengths|
                                         && |freqs| == |lengths| && |phases| == |lengths|)
            && (increments.Scalar? && increments.x != 0.0 ==> r == Err(TypeError))
            && (increments.PerChannel? && !AllEqual(increments.xs) ==> r == Err(NotImplementedError))
            && (increments.PerChannel? && AllEqual(increments.xs) && |increments.xs| != |lengths| ==> r == Err(ValueError))
            && ((increments.Scalar? ==> increments.x == 0.0) &&
                (increments.PerChannel? ==> AllEqual(increments.xs)) &&
                !(|amps| == |lengths| && |freqs| == |lengths| && |phases| == |lengths|)
                ==> r == Err(ValueError))
  {
    if increments.Scalar? && increments.x == 0.0 {
      var zeros: seq<real> := seq(|lengths|, _ => 0.0);
      assert AllEqual(zeros);
    }
  }

  /** Shape of the element list: at most one element per channel, each a
      microwave element of positive duration that keeps the frequencies and
      phases of all channels, and only the first one carries the increment. */
  lemma MultLengthShape(lengths: seq<real>, increments: IncrementArg, amps: seq<real>,
                        freqs: seq<real>, phases: seq<Phase>)
    requires MultLengthElements(lengths, increments, amps, freqs, phases).Ok?
    ensures var els := MultLengthElements(lengths, increments, amps, freqs, phases).value;
            var incs := CheckedIncrements(lengths, increments, amps, freqs, phases).value;
            && |els| <= |lengths|
            && |els| == |PositiveLengths(SanitizedLengths(lengths, incs))|
            && (forall i :: 0 <= i < |els| ==>
                  && els[i].MwElement? && els[i].initLength > 0.0 && |els[i].amps| == |lengths|
                  && els[i].freqs == freqs && els[i].phases == phases)
            && (forall i :: 1 <= i < |els| ==> els[i].increment == 0.0)
            && (|els| > 0 ==> forall c :: 0 <= c < |incs| ==> els[0].increment == incs[c])
  {
    var incs := CheckedIncrements(lengths, increments, amps, freqs, phases).value;
    PartitionSegmentCount(SanitizedLengths(lengths, incs), ZeroNanAmps(amps, phases));
  }

  /** Channel profile: with non-negative lengths, channel `c` plays (with its
      amplitude, or 0 when its phase is NaN) in a prefix of the elements whose
      initial durations add up to its length, the placeholder length standing
      in for a swept zero-length channel; it is off in every later element. */
  lemma MultLengthChannelProfile(lengths: seq<real>, increments: IncrementArg, amps: seq<real>,
                                 freqs: seq<real>, phases: seq<Phase>, c: nat)
    requires MultLengthElements(lengths, increments, amps, freqs, phases).Ok?
    requires NonNegative(lengths) && c < |lengths|
    ensures var els := MultLengthElements(lengths, increments, amps, freqs, phases).value;
            var incs := CheckedIncrements(lengths, increments, amps, freqs, phases).value;
            var a := if phases[c].Nan? then 0.0 else amps[c];
            var len := if lengths[c] == 0.0 && incs[c] != 0.0 then LengthPlaceholder else lengths[c];
            exists p :: CarriesFor(AsBlocks(els), c, a, p, len)
  {
    var incs := CheckedIncrements(lengths, increments, amps, freqs, phases).value;
    var sl := SanitizedLengths(lengths, incs);
    var za := ZeroNanAmps(amps, phases);
    var blocks := PulsePartition(sl, za);
    var els := MultLengthElements(lengths, increments, amps, freqs, phases).value;
    assert AsBlocks(els) == blocks;
    assert NonNegative(sl);
    PartitionCompleteness(sl, za, c);
  }

  /** A swept channel of zero length is not dropped: it plays in the first
      element, for the placeholder length. */
  lemma MultLengthKeepsSweptChannel(lengths: seq<real>, increments: IncrementArg, amps: seq<real>,
                                    freqs: seq<real>, phases: seq<Phase>, c: nat)
    requires MultLengthElements(lengths, increments, amps, freqs, phases).Ok?
    requires NonNegative(lengths) && c < |lengths| && lengths[c] == 0.0
    requires CheckedIncrements(lengths, increments, amps, freqs, phases).value[c] != 0.0
    ensures var els := MultLengthElements(lengths, increments, amps, freqs, phases).value;
            && |els| > 0 && els[0].amps[c] == (if phases[c].Nan? then 0.0 else amps[c])
            && els[0].initLength <= LengthPlaceholder
  {
    var els := MultLengthElements(lengths, increments, amps, freqs, phases).value;
    var a := if phases[c].Nan? then 0.0 else amps[c];
    MultLengthChannelProfile(lengths, increments, amps, freqs, phases, c);
    var blocks := AsBlocks(els);
    var p: nat :| CarriesFor(blocks, c, a, p, LengthPlaceholder);
    MultLengthShape(lengths, increments, amps, freqs, phases);
    PrefixCoversFirst(blocks, p);
  }

  /** The first segment of a non-empty prefix is no longer than the prefix. */
  lemma {:induction false} PrefixCoversFirst(blocks: seq<Block>, p: nat)
    requires 0 < p <= |blocks|
    requires forall i :: 0 <= i < |blocks| ==> blocks[i].length > 0.0
    ensures blocks[0].length <= SumLengths(blocks[..p])
  {
    if p > 1 {
      PrefixCoversFirst(blocks, p - 1);
      assert blocks[..p] == blocks[..p - 1] + [blocks[p - 1]];
      SumLengthsAppend(blocks[..p - 1], [blocks[p - 1]]);
      assert Lengths([blocks[p - 1]]) == [blocks[p - 1].length];
      SumSingle(blocks[p - 1].length);
    } else {
      assert Lengths(blocks[..1]) == [blocks[0].length];
      SumSingle(blocks[0].length);
    }
  }

  /** Measured with `get_element_length_max`, the element list of a sweep
      with a nonzero increment lasts the longest sanitized channel plus one
      increment per further step. */
  lemma MultLengthSweptDuration(lengths: seq<real>, increments: IncrementArg, amps: seq<real>,
                                freqs: seq<real>, phases: seq<Phase>, nTau: int)
    requires MultLengthElements(lengths, increments, amps, freqs, phases).Ok?
    requires NonNegative(lengths) && |lengths| > 0
    requires CheckedIncrements(lengths, increments, amps, freqs, phases).value[0] != 0.0
    ensures var els := MultLengthElements(lengths, increments, amps, freqs, phases).value;
            var incs := CheckedIncrements(lengths, increments, amps, freqs, phases).value;
            ElementLengthMax(els, nTau) == Max(SanitizedLengths(lengths, incs)) + Sweep(nTau - 1, incs[0])
  {
    SweptSums(lengths, increments, amps, freqs, phases);
  }

  /** The two sums `get_element_length_max` is made of, for a swept list. */
  lemma SweptSums(lengths: seq<real>, increments: IncrementArg, amps: seq<real>,
                  freqs: seq<real>, phases: seq<Phase>)
    requires MultLengthElements(lengths, increments, amps, freqs, phases).Ok?
    requires NonNegative(lengths) && |lengths| > 0
    requires CheckedIncrements(lengths, increments, amps, freqs, phases).value[0] != 0.0
    ensures var els := MultLengthElements(lengths, increments, amps, freqs, phases).value;
            var incs := CheckedIncrements(lengths, increments, amps, freqs, phases).value;
            Sum(InitLengths(els)) == Max(SanitizedLengths(lengths, incs)) && Sum(Increments(els)) == incs[0]
  {
    var incs := CheckedIncrements(lengths, increments, amps, freqs, phases).value;
    var sl := SanitizedLengths(lengths, incs);
    MultLengthIsSegments(lengths, increments, amps, freqs, phases);
    SanitizedFacts(lengths, incs);
    SegmentsDuration(sl, ZeroNanAmps(amps, phases), incs[0], freqs, phases);
  }

  /** Without a sweep, `get_element_length` accepts the element list and
      gives the duration of the longest channel. */
  lemma MultLengthFixedDuration(lengths: seq<real>, increments: IncrementArg, amps: seq<real>,
                                freqs: seq<real>, phases: seq<Phase>)
    requires MultLengthElements(lengths, increments, amps, freqs, phases).Ok?
    requires NonNegative(lengths) && |lengths| > 0
    requires CheckedIncrements(lengths, increments, amps, freqs, phases).value[0] == 0.0
    ensures ElementLength(MultLengthElements(lengths, increments, amps, freqs, phases).value) == Ok(Max(lengths))
  {
    var incs := CheckedIncrements(lengths, increments, amps, freqs, phases).value;
    MultLengthIsSegments(lengths, increments, amps, freqs, phases);
    SanitizedFacts(lengths, incs);
    SegmentsDuration(lengths, ZeroNanAmps(amps, phases), incs[0], freqs, phases);
  }

  /** Sanitizing keeps lengths non-negative, makes every swept length positive
      and changes nothing when nothing is swept. */
  lemma SanitizedFacts(lengths: seq<real>, incs: seq<real>)
    requires |lengths| == |incs| > 0 && NonNegative(lengths) && AllEqual(incs)
    ensures NonNegative(SanitizedLengths(lengths, incs))
    ensures incs[0] != 0.0 ==> SanitizedLengths(lengths, incs)[0] > 0.0
    ensures incs[0] == 0.0 ==> SanitizedLengths(lengths, incs) == lengths
  {
    if incs[0] == 0.0 {
      assert forall c :: 0 <= c < |incs| ==> incs[c] == incs[0];
    }
  }

  lemma MultLengthIsSegments(lengths: seq<real>, increments: IncrementArg, amps: seq<real>,
                             freqs: seq<real>, phases: seq<Phase>)
    requires MultLengthElements(lengths, increments, amps, freqs, phases).Ok?
    requires |lengths| > 0
    ensures var incs := CheckedIncrements(lengths, increments, amps, freqs, phases).value;
            MultLengthElements(lengths, increments, amps, freqs, phases).value ==
              SegmentsToElements(PulsePartition(SanitizedLengths(lengths, incs), ZeroNanAmps(amps, phases)), incs[0], freqs, phases)
  {
  }

  /** The measures of the element list of a partition of non-negative lengths. */
  lemma SegmentsDuration(sl: seq<real>, za: seq<real>, inc: real, freqs: seq<real>, phases: seq<Phase>)
    requires |sl| == |za| && NonNegative(sl) && |sl| > 0
    ensures var els := SegmentsToElements(PulsePartition(sl, za), inc, freqs, phases);
            && Sum(InitLengths(els)) == Max(sl)
            && (sl[0] > 0.0 ==> Sum(Increments(els)) == inc)
            && (inc == 0.0 ==> Sum(Increments(els)) == 0.0)
  {
    var blocks := PulsePartition(sl, za);
    PartitionTotal(sl, za);
    SegmentSums(blocks, inc, freqs, phases);
    if sl[0] > 0.0 {
      assert blocks != [] by {
        assert Lengths([]) == [];
      }
    }
  }

  /** The measures of an element list built from segments. */
  lemma SegmentSums(blocks: seq<Block>, inc: real, freqs: seq<real>, phases: seq<Phase>)
    ensures var els := SegmentsToElements(blocks, inc, freqs, phases);
            && Sum(InitLengths(els)) == SumLengths(blocks)
            && Sum(Increments(els)) == if blocks == [] then 0.0 else inc
  {
    var els := SegmentsToElements(blocks, inc, freqs, phases);
    assert InitLengths(els) == Lengths(blocks);
    if blocks != [] {
      SumFirstOnly(Increments(els));
    } else {
      assert Increments(els) == [];
      assert Lengths(blocks) == [];
    }
  }
}
