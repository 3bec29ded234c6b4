/** The generator object of the multi-NV recipes: its catalog of optimal
    control pulses, the lookup and loading of that catalog, and the builders
    of rotation pulses (`get_pi_element`, `_get_pi_oc_element`,
    `get_mult_mw_element`). */
module Generator {
  import opened Wrappers
  import opened Seqs
  import opened Text
  import opened Elements
  import opened Partition
  import opened Catalog

  /** Amplitude put on every channel of a pulse without any, so that the
      pulse becomes a wait of its own duration instead of vanishing (1e-99). */
  const AmpPlaceholder: real := 0.000000000000000000000000000000000000000000000000000000000000000000000000000000000000000000000000001

  /** The `on_nv` argument: `None`, one NV, or a list of NVs. */
  datatype NvSelection = NoNv | OneNv(nv: int) | NvList(nvs: seq<int>)

  /** The envelopes `get_pi_element` tells apart; every other one is rejected. */
  datatype Envelope = Rectangle | Optimal | OtherEnvelope

  /** The call of the external optimal-control generator that
      `_get_pi_oc_element` prepares: carriers and phases, the base names of
      the in-phase and the quadrature files as comma-separated lists, and the
      amplitude scale. The block name and the assets folder it also passes
      are not recorded. */
  datatype OcRequest = OcRequest(freqs: seq<real>, phases: seq<real>, filenameI: string, filenameQ: string,
                                 scaleAmpl: real)

  /** What `get_pi_element` returns: microwave elements, or the block the
      optimal-control generator is asked for. */
  datatype PiPulse = MwPulse(els: seq<Element>) | OptimalPulse(request: OcRequest)

  // ---------------------------------------------------------------------
  // Masking by non-zero amplitude

  /** `xs[keep != 0]` on two arrays of the same length. */
  function Mask(xs: seq<real>, keep: seq<real>): (r: seq<real>)
    requires |xs| == |keep|
    ensures |r| <= |xs|
  {
    if xs == [] then []
    else (if keep[0] != 0.0 then [xs[0]] else []) + Mask(xs[1..], keep[1..])
  }

  /** The same mask keeps the same number of entries of any array. */
  lemma {:induction false} MaskLength(xs: seq<real>, ys: seq<real>, keep: seq<real>)
    requires |xs| == |keep| && |ys| == |keep|
    ensures |Mask(xs, keep)| == |Mask(ys, keep)|
  {
    if xs != [] {
      MaskLength(xs[1..], ys[1..], keep[1..]);
    }
  }

  /** An entry survives exactly when it sits at a position the mask keeps. */
  lemma {:induction false} MaskMembers(xs: seq<real>, keep: seq<real>, x: real)
    requires |xs| == |keep|
    ensures x in Mask(xs, keep) <==> exists i :: 0 <= i < |xs| && keep[i] != 0.0 && xs[i] == x
  {
    if xs != [] {
      MaskMembers(xs[1..], keep[1..], x);
      if exists i :: 1 <= i < |xs| && keep[i] != 0.0 && xs[i] == x {
        var i :| 1 <= i < |xs| && keep[i] != 0.0 && xs[i] == x;
        assert keep[1..][i - 1] != 0.0 && xs[1..][i - 1] == x;
      }
      if exists i :: 0 <= i < |xs[1..]| && keep[1..][i] != 0.0 && xs[1..][i] == x {
        var i :| 0 <= i < |xs[1..]| && keep[1..][i] != 0.0 && xs[1..][i] == x;
        assert keep[i + 1] != 0.0 && xs[i + 1] == x;
      }
    }
  }

  /** The amplitudes that survive their own mask are the non-zero ones; none
      survives exactly when all are zero. */
  lemma KeptAmplitudes(amps: seq<real>)
    ensures forall a :: a in Mask(amps, amps) <==> a in amps && a != 0.0
    ensures Mask(amps, amps) == [] <==> forall i :: 0 <= i < |amps| ==> amps[i] == 0.0
  {
    forall a
      ensures a in Mask(amps, amps) <==> a in amps && a != 0.0
    {
      MaskMembers(amps, amps, a);
    }
    if Mask(amps, amps) != [] {
      assert Mask(amps, amps)[0] in Mask(amps, amps);
    }
    if exists i :: 0 <= i < |amps| && amps[i] != 0.0 {
      var i :| 0 <= i < |amps| && amps[i] != 0.0;
      assert amps[i] in Mask(amps, amps);
    }
  }

  /** A mask that keeps every position changes nothing. */
  lemma {:induction false} MaskAllKept(xs: seq<real>, keep: seq<real>)
    requires |xs| == |keep| && forall i :: 0 <= i < |keep| ==> keep[i] != 0.0
    ensures Mask(xs, keep) == xs
  {
    if xs != [] {
      MaskAllKept(xs[1..], keep[1..]);
    }
  }

  /** `pi_x_length * rabi_periods / 2`: the duration of a rotation by
      `pix` half turns on each line. */
  function PiLengths(rabiPeriods: seq<real>, pix: real): (r: seq<real>)
    ensures |r| == |rabiPeriods|
    ensures forall i :: 0 <= i < |r| ==> r[i] == RotationLength(pix, rabiPeriods[i])
  {
    if rabiPeriods == [] then []
    else [RotationLength(pix, rabiPeriods[0])] + PiLengths(rabiPeriods[1..], pix)
  }

  /** A rotation by `pix` half turns lasts `pix` half Rabi periods. */
  function RotationLength(pix: real, rabiPeriod: real): real
  {
    pix * rabiPeriod / 2.0
  }

  /** Scaling and masking commute. */
  lemma {:induction false} MaskPiLengths(rabiPeriods: seq<real>, pix: real, keep: seq<real>)
    requires |rabiPeriods| == |keep|
    ensures Mask(PiLengths(rabiPeriods, pix), keep) == PiLengths(Mask(rabiPeriods, keep), pix)
  {
    if rabiPeriods != [] {
      var tail := rabiPeriods[1..];
      MaskPiLengths(tail, pix, keep[1..]);
      assert PiLengths(rabiPeriods, pix)[1..] == PiLengths(tail, pix);
      if keep[0] != 0.0 {
        var m := Mask(rabiPeriods, keep);
        assert m[1..] == Mask(tail, keep[1..]);
      }
    }
  }

  /** The longest rotation belongs to the longest Rabi period. */
  lemma MaxPiLengths(rabiPeriods: seq<real>, pix: real)
    requires |rabiPeriods| > 0 && pix > 0.0
    ensures Max(PiLengths(rabiPeriods, pix)) == RotationLength(pix, Max(rabiPeriods))
  {
    var ls := PiLengths(rabiPeriods, pix);
    var m := Max(rabiPeriods);
    var top := Max(ls);
    var i :| 0 <= i < |rabiPeriods| && rabiPeriods[i] == m;
    var j :| 0 <= j < |ls| && ls[j] == top;
    assert ls[i] <= top;
    ScaleMonotone(pix, rabiPeriods[j], m);
    assert top == RotationLength(pix, rabiPeriods[j]) <= RotationLength(pix, m) == ls[i];
  }

  lemma ScaleMonotone(pix: real, a: real, b: real)
    requires pix > 0.0 && a <= b
    ensures RotationLength(pix, a) <= RotationLength(pix, b)
  {
    assert pix * b - pix * a == pix * (b - a);
  }

  /** Durations scaled by a non-negative factor stay non-negative. */
  lemma PiLengthsNonNegative(rabiPeriods: seq<real>, pix: real)
    requires NonNegative(rabiPeriods) && pix >= 0.0
    ensures NonNegative(PiLengths(rabiPeriods, pix))
  {
    forall i | 0 <= i < |rabiPeriods|
      ensures RotationLength(pix, rabiPeriods[i]) >= 0.0
    {
      assert pix * rabiPeriods[i] >= 0.0;
    }
  }

  /** Masking keeps non-negativity. */
  lemma MaskNonNegative(xs: seq<real>, keep: seq<real>)
    requires |xs| == |keep| && NonNegative(xs)
    ensures NonNegative(Mask(xs, keep))
  {
    var m := Mask(xs, keep);
    forall i | 0 <= i < |m|
      ensures m[i] >= 0.0
    {
      MaskMembers(xs, keep, m[i]);
    }
  }

  // ---------------------------------------------------------------------
  // _get_pi_oc_element

  /** The NVs an `on_nv` other than `None` names; a single NV is wrapped
      into a list. */
  function Targets(onNv: NvSelection): (r: seq<int>)
    requires !onNv.NoNv?
    ensures onNv.OneNv? ==> r == [onNv.nv]
  {
    match onNv
    case OneNv(nv) => [nv]
    case NvList(nvs) => nvs
  }

  /** Every NV has exactly one pulse for the rotation in the catalog. */
  predicate AllFound(catalog: seq<OcPulse>, nvs: seq<int>, pix: real)
  {
    forall k :: 0 <= k < |nvs| ==> |Matches(catalog, nvs[k], pix)| == 1
  }

  /** The base name of the in-phase file of the one pulse for `nv`. */
  function FoundFileI(catalog: seq<OcPulse>, nv: int, pix: real): string
    requires |Matches(catalog, nv, pix)| == 1
  {
    Basename(Matches(catalog, nv, pix)[0].fileI)
  }

  /** The base name of the quadrature file of the one pulse for `nv`. */
  function FoundFileQ(catalog: seq<OcPulse>, nv: int, pix: real): string
    requires |Matches(catalog, nv, pix)| == 1
  {
    Basename(Matches(catalog, nv, pix)[0].fileQ)
  }

  /** The base names of the in-phase files of the pulses found, NV by NV. */
  function FoundI(catalog: seq<OcPulse>, nvs: seq<int>, pix: real): (r: seq<string>)
    requires AllFound(catalog, nvs, pix)
    ensures |r| == |nvs|
  {
    seq(|nvs|, k requires 0 <= k < |nvs| => FoundFileI(catalog, nvs[k], pix))
  }

  /** The base names of the quadrature files of the pulses found, NV by NV. */
  function FoundQ(catalog: seq<OcPulse>, nvs: seq<int>, pix: real): (r: seq<string>)
    requires AllFound(catalog, nvs, pix)
    ensures |r| == |nvs|
  {
    seq(|nvs|, k requires 0 <= k < |nvs| => FoundFileQ(catalog, nvs[k], pix))
  }

  /** `_get_pi_oc_element` up to the call of the external generator. The
      chained comparison `len(phases) == len(freqs) == len(on_nv)` compares
      the first two lengths before it asks for the length of `on_nv`, so a
      missing `on_nv` is a `TypeError` only when phases and carriers agree. */
  function PiOc(catalog: seq<OcPulse>, phases: seq<real>, freqs: seq<real>, onNv: NvSelection,
                pix: real, scaleAmpl: real): Result<OcRequest>
  {
    if |phases| != |freqs| then Err(ValueError)
    else if onNv.NoNv? then Err(TypeError)
    else
      var nvs := Targets(onNv);
      if |nvs| != |freqs| || !AllFound(catalog, nvs, pix) then Err(ValueError)
      else Ok(OcRequest(freqs, phases, Join(FoundI(catalog, nvs, pix)), Join(FoundQ(catalog, nvs, pix)), scaleAmpl))
  }

  /** An optimal rotation is prepared exactly when phases, carriers and NVs
      are equally many and every NV has exactly one pulse for the rotation in
      the catalog; a missing `on_nv` with agreeing phases and carriers is a
      `TypeError`, every other failure a `ValueError`. */
  lemma PiOcAccepts(catalog: seq<OcPulse>, phases: seq<real>, freqs: seq<real>, onNv: NvSelection,
                    pix: real, scaleAmpl: real)
    ensures var r := PiOc(catalog, phases, freqs, onNv, pix, scaleAmpl);
            && (r.Ok? <==> && |phases| == |freqs| && !onNv.NoNv? && |Targets(onNv)| == |freqs|
                           && forall k :: 0 <= k < |freqs| ==> ExactlyOneEntry(catalog, Targets(onNv)[k], pix))
            && (r.Err? ==> (r.error == TypeError <==> |phases| == |freqs| && onNv.NoNv?))
            && (r.Err? ==> r.error == TypeError || r.error == ValueError)
  {
    if |phases| == |freqs| && !onNv.NoNv? && |Targets(onNv)| == |freqs| {
      var nvs := Targets(onNv);
      forall k | 0 <= k < |nvs|
        ensures |Matches(catalog, nvs[k], pix)| == 1 <==> ExactlyOneEntry(catalog, nvs[k], pix)
      {
        SingleMatch(catalog, nvs[k], pix);
      }
    }
  }

  /** The pulse used for an NV is a catalog pulse for that NV and rotation,
      and no other catalog entry has its target. */
  lemma PiOcUsesCatalogPulse(catalog: seq<OcPulse>, phases: seq<real>, freqs: seq<real>, onNv: NvSelection,
                             pix: real, scaleAmpl: real, k: nat)
    requires PiOc(catalog, phases, freqs, onNv, pix, scaleAmpl).Ok?
    requires k < |freqs|
    ensures var p := Matches(catalog, Targets(onNv)[k], pix)[0];
            && p in catalog && p.onNv == Targets(onNv)[k] && p.pix == pix
            && forall q :: q in catalog && q.EqualTargetU(p) ==> q == p
  {
    var nvs := Targets(onNv);
    assert AllFound(catalog, nvs, pix);
    OnlyMatch(catalog, nvs[k], pix);
  }

  /** The one pulse a lookup finds is the catalog's only pulse for the target. */
  lemma OnlyMatch(catalog: seq<OcPulse>, onNv: int, pix: real)
    requires |Matches(catalog, onNv, pix)| == 1
    ensures var p := Matches(catalog, onNv, pix)[0];
            && p in catalog && p.onNv == onNv && p.pix == pix
            && forall q :: q in catalog && q.EqualTargetU(p) ==> q == p
  {
    var ms := Matches(catalog, onNv, pix);
    var p := ms[0];
    assert p in ms;
    forall q | q in catalog && q.EqualTargetU(p)
      ensures q == p
    {
      assert q in ms;
    }
  }

  /** The request carries the carriers, phases and scale it was given, and
      its comma-separated file lists name, NV by NV, the files of the pulse
      used for that NV. */
  lemma PiOcRequestNamesFiles(catalog: seq<OcPulse>, phases: seq<real>, freqs: seq<real>, onNv: NvSelection,
                              pix: real, scaleAmpl: real, k: nat)
    requires PiOc(catalog, phases, freqs, onNv, pix, scaleAmpl).Ok?
    requires k < |freqs|
    ensures var req := PiOc(catalog, phases, freqs, onNv, pix, scaleAmpl).value;
            var p := Matches(catalog, Targets(onNv)[k], pix)[0];
            && Contains(req.filenameI, Basename(p.fileI)) && Contains(req.filenameQ, Basename(p.fileQ))
            && req.freqs == freqs && req.phases == phases && req.scaleAmpl == scaleAmpl
  {
    var nvs := Targets(onNv);
    var fi, fq := FoundI(catalog, nvs, pix), FoundQ(catalog, nvs, pix);
    JoinHoldsItems(fi, k);
    ContainsAt(Join(fi), fi[k]);
    JoinHoldsItems(fq, k);
    ContainsAt(Join(fq), fq[k]);
  }

  /** On a catalog without repeated targets, an optimal rotation is prepared
      whenever the arguments agree in length and every NV has a pulse. */
  lemma PiOcOnUniqueCatalog(catalog: seq<OcPulse>, phases: seq<real>, freqs: seq<real>, nvs: seq<int>,
                            pix: real, scaleAmpl: real)
    requires UniqueTargets(catalog)
    requires |phases| == |freqs| && |nvs| == |freqs|
    requires forall k :: 0 <= k < |nvs| ==> exists p :: p in catalog && p.onNv == nvs[k] && p.pix == pix
    ensures PiOc(catalog, phases, freqs, NvList(nvs), pix, scaleAmpl).Ok?
  {
    forall k | 0 <= k < |nvs|
      ensures |Matches(catalog, nvs[k], pix)| == 1
    {
      UniqueTargetsLookup(catalog, nvs[k], pix);
      var p :| p in catalog && p.onNv == nvs[k] && p.pix == pix;
      assert p in Matches(catalog, nvs[k], pix);
    }
  }

  // ---------------------------------------------------------------------
  // get_pi_element

  /** `get_pi_element`. With `noAmps2Idle` and no amplitude on any line,
      every line gets the placeholder amplitude and the envelope becomes
      rectangular. The lines with non-zero amplitude are kept, each with
      rotation length `pix * rabi_period / 2` and the phase `xphase`;
      masking carriers or periods of another length than the amplitudes is an
      `IndexError`. A zero rotation is no pulse at all; otherwise the
      envelope picks the builder. */
  function PiElement(catalog: seq<OcPulse>, xphase: real, freqs: seq<real>, amps: seq<real>,
                     rabiPeriods: seq<real>, pix: real, noAmps2Idle: bool, env: Envelope,
                     onNv: NvSelection): Result<PiPulse>
  {
    var idle := noAmps2Idle && Mask(amps, amps) == [];
    var mwAmps := if idle then seq(|amps|, _ => AmpPlaceholder) else amps;
    var envType := if idle then Rectangle else env;
    if |rabiPeriods| != |mwAmps| || |freqs| != |mwAmps| then Err(IndexError)
    else
      var kept := Mask(mwAmps, mwAmps);
      var lengths := Mask(PiLengths(rabiPeriods, pix), mwAmps);
      var fs := Mask(freqs, mwAmps);
      if pix == 0.0 then Ok(MwPulse([]))
      else
        match envType
        case Rectangle =>
          var els :- MultLengthElements(lengths, Scalar(0.0), kept, fs, seq(|kept|, _ => Deg(xphase)));
          Ok(MwPulse(els))
        case Optimal =>
          var request :- PiOc(catalog, seq(|kept|, _ => xphase), fs, onNv, pix, 1.0);
          Ok(OptimalPulse(request))
        case OtherEnvelope => Err(ValueError)
  }

  /** The substitution of `noAmps2Idle` is the same as asking for a
      rectangular pulse with the placeholder amplitude on every line. */
  lemma PiIdleSubstitution(catalog: seq<OcPulse>, xphase: real, freqs: seq<real>, amps: seq<real>,
                           rabiPeriods: seq<real>, pix: real, env: Envelope, onNv: NvSelection)
    requires forall i :: 0 <= i < |amps| ==> amps[i] == 0.0
    ensures PiElement(catalog, xphase, freqs, amps, rabiPeriods, pix, true, env, onNv) ==
            PiElement(catalog, xphase, freqs, seq(|amps|, _ => AmpPlaceholder), rabiPeriods, pix, false, Rectangle, onNv)
  {
    KeptAmplitudes(amps);
  }

  /** Masking fails, with an `IndexError`, exactly when the Rabi periods or
      the carriers are not as many as the amplitudes; no other failure is an
      `IndexError`. */
  lemma PiShapeError(catalog: seq<OcPulse>, xphase: real, freqs: seq<real>, amps: seq<real>,
                     rabiPeriods: seq<real>, pix: real, noAmps2Idle: bool, env: Envelope, onNv: NvSelection)
    ensures PiElement(catalog, xphase, freqs, amps, rabiPeriods, pix, noAmps2Idle, env, onNv) == Err(IndexError)
            <==> |rabiPeriods| != |amps| || |freqs| != |amps|
  {
  }

  /** A rotation by zero is no pulse, whatever the envelope. */
  lemma PiZeroRotation(catalog: seq<OcPulse>, xphase: real, freqs: seq<real>, amps: seq<real>,
                       rabiPeriods: seq<real>, noAmps2Idle: bool, env: Envelope, onNv: NvSelection)
    requires |rabiPeriods| == |amps| && |freqs| == |amps|
    ensures PiElement(catalog, xphase, freqs, amps, rabiPeriods, 0.0, noAmps2Idle, env, onNv) == Ok(MwPulse([]))
  {
  }

  /** A rectangular rotation on lines of which at least one is driven lasts
      `pix` half periods of the slowest driven line, and every element of it
      drives exactly the driven lines' carriers. */
  lemma PiRectangleDuration(catalog: seq<OcPulse>, xphase: real, freqs: seq<real>, amps: seq<real>,
                            rabiPeriods: seq<real>, pix: real, noAmps2Idle: bool, onNv: NvSelection)
    requires |rabiPeriods| == |amps| && |freqs| == |amps|
    requires pix > 0.0 && NonNegative(rabiPeriods)
    requires exists i :: 0 <= i < |amps| && amps[i] != 0.0
    ensures Mask(rabiPeriods, amps) != []
    ensures var r := PiElement(catalog, xphase, freqs, amps, rabiPeriods, pix, noAmps2Idle, Rectangle, onNv);
            && r.Ok? && r.value.MwPulse?
            && ElementLength(r.value.els) == Ok(RotationLength(pix, Max(Mask(rabiPeriods, amps))))
            && forall e :: e in r.value.els ==> e.MwElement? && e.freqs == Mask(freqs, amps)
  {
    KeptAmplitudes(amps);
    var kept := Mask(amps, amps);
    var periods := Mask(rabiPeriods, amps);
    var lengths := Mask(PiLengths(rabiPeriods, pix), amps);
    var fs := Mask(freqs, amps);
    var phases := seq(|kept|, _ => Deg(xphase));
    assert |periods| == |kept| && |lengths| == |kept| && |fs| == |kept| by {
      MaskLength(rabiPeriods, amps, amps);
      MaskLength(PiLengths(rabiPeriods, pix), amps, amps);
      MaskLength(freqs, amps, amps);
    }
    assert lengths == PiLengths(periods, pix) && NonNegative(lengths) by {
      MaskPiLengths(rabiPeriods, pix, amps);
      MaskNonNegative(rabiPeriods, amps);
      PiLengthsNonNegative(periods, pix);
    }
    var r := MultLengthElements(lengths, Scalar(0.0), kept, fs, phases);
    assert r.Ok? by {
      MultLengthAccepts(lengths, Scalar(0.0), kept, fs, phases);
    }
    assert PiElement(catalog, xphase, freqs, amps, rabiPeriods, pix, noAmps2Idle, Rectangle, onNv) == Ok(MwPulse(r.value));
    assert ElementLength(r.value) == Ok(RotationLength(pix, Max(periods))) by {
      MultLengthFixedDuration(lengths, Scalar(0.0), kept, fs, phases);
      MaxPiLengths(periods, pix);
    }
    forall e | e in r.value
      ensures e.MwElement? && e.freqs == fs
    {
      MultLengthShape(lengths, Scalar(0.0), kept, fs, phases);
      var i :| 0 <= i < |r.value| && r.value[i] == e;
    }
  }

  /** With `noAmps2Idle`, a rotation on lines none of which is driven is kept
      as a wait as long as the rotation on the slowest line would be. */
  lemma PiIdleKeepsDuration(catalog: seq<OcPulse>, xphase: real, freqs: seq<real>, amps: seq<real>,
                            rabiPeriods: seq<real>, pix: real, env: Envelope, onNv: NvSelection)
    requires |amps| > 0 && |rabiPeriods| == |amps| && |freqs| == |amps|
    requires forall i :: 0 <= i < |amps| ==> amps[i] == 0.0
    requires pix > 0.0 && NonNegative(rabiPeriods)
    ensures var r := PiElement(catalog, xphase, freqs, amps, rabiPeriods, pix, true, env, onNv);
            && r.Ok? && r.value.MwPulse?
            && ElementLength(r.value.els) == Ok(RotationLength(pix, Max(rabiPeriods)))
  {
    var placeholders := seq(|amps|, _ => AmpPlaceholder);
    PiIdleSubstitution(catalog, xphase, freqs, amps, rabiPeriods, pix, env, onNv);
    assert placeholders[0] != 0.0;
    PiRectangleDuration(catalog, xphase, freqs, placeholders, rabiPeriods, pix, false, onNv);
    MaskAllKept(rabiPeriods, placeholders);
  }

  /** Without `noAmps2Idle`, a rectangular rotation on lines none of which is
      driven is silently dropped. */
  lemma PiSilentDrop(catalog: seq<OcPulse>, xphase: real, freqs: seq<real>, amps: seq<real>,
                     rabiPeriods: seq<real>, pix: real, onNv: NvSelection)
    requires |rabiPeriods| == |amps| && |freqs| == |amps|
    requires forall i :: 0 <= i < |amps| ==> amps[i] == 0.0
    ensures PiElement(catalog, xphase, freqs, amps, rabiPeriods, pix, false, Rectangle, onNv) == Ok(MwPulse([]))
  {
    KeptAmplitudes(amps);
    MaskLength(PiLengths(rabiPeriods, pix), amps, amps);
    MaskLength(freqs, amps, amps);
    NoChannelsNoElements(xphase);
  }

  /** With no channel left there is nothing to play. */
  lemma NoChannelsNoElements(xphase: real)
    ensures MultLengthElements([], Scalar(0.0), [], [], seq(0, _ => Deg(xphase))) == Ok([])
  {
    assert seq(0, _ => Deg(xphase)) == [];
    MultLengthAccepts([], Scalar(0.0), [], [], []);
    MultLengthShape([], Scalar(0.0), [], [], []);
  }

  /** An optimal rotation with at least one driven line is prepared exactly
      when an NV selection is given, it names as many NVs as there are driven
      lines, and the catalog holds exactly one pulse for each NV and the
      rotation; the request carries the driven lines' carriers. */
  lemma PiOptimalNeedsCatalog(catalog: seq<OcPulse>, xphase: real, freqs: seq<real>, amps: seq<real>,
                              rabiPeriods: seq<real>, pix: real, noAmps2Idle: bool, onNv: NvSelection)
    requires |rabiPeriods| == |amps| && |freqs| == |amps| && pix != 0.0
    requires exists i :: 0 <= i < |amps| && amps[i] != 0.0
    ensures var r := PiElement(catalog, xphase, freqs, amps, rabiPeriods, pix, noAmps2Idle, Optimal, onNv);
            && (r.Ok? <==> && !onNv.NoNv? && |Targets(onNv)| == |Mask(amps, amps)|
                           && forall k :: 0 <= k < |Targets(onNv)| ==> ExactlyOneEntry(catalog, Targets(onNv)[k], pix))
            && (r.Ok? ==> r.value.OptimalPulse? && r.value.request.freqs == Mask(freqs, amps))
  {
    KeptAmplitudes(amps);
    var kept := Mask(amps, amps);
    MaskLength(freqs, amps, amps);
    PiOcAccepts(catalog, seq(|kept|, _ => xphase), Mask(freqs, amps), onNv, pix, 1.0);
  }

  /** An envelope other than rectangle or optimal is rejected once there is a
      rotation on a driven line. */
  lemma PiOtherEnvelopeRejected(catalog: seq<OcPulse>, xphase: real, freqs: seq<real>, amps: seq<real>,
                                rabiPeriods: seq<real>, pix: real, noAmps2Idle: bool, onNv: NvSelection)
    requires |rabiPeriods| == |amps| && |freqs| == |amps| && pix != 0.0
    requires exists i :: 0 <= i < |amps| && amps[i] != 0.0
    ensures PiElement(catalog, xphase, freqs, amps, rabiPeriods, pix, noAmps2Idle, OtherEnvelope, onNv) == Err(ValueError)
  {
    KeptAmplitudes(amps);
  }

  // ---------------------------------------------------------------------
  // get_mult_mw_element

  /** `get_mult_mw_element`: every line with non-zero amplitude is driven for
      the same `length`, with the same `increment` and `phase`. */
  function MultMwElement(phase: Phase, length: real, freqs: seq<real>, amps: seq<real>,
                         increment: real): Result<seq<Element>>
  {
    if |freqs| != |amps| then Err(IndexError)
    else
      var kept := Mask(amps, amps);
      var n := |kept|;
      MultLengthElements(seq(n, _ => length), PerChannel(seq(n, _ => increment)), kept, Mask(freqs, amps),
                         seq(n, _ => phase))
  }

  /** The element list is built exactly when there is one carrier per
      amplitude; otherwise masking fails with an `IndexError`. */
  lemma MultMwElementAccepts(phase: Phase, length: real, freqs: seq<real>, amps: seq<real>, increment: real)
    ensures var r := MultMwElement(phase, length, freqs, amps, increment);
            (r.Ok? <==> |freqs| == |amps|) && (r.Err? ==> r.error == IndexError)
  {
    if |freqs| == |amps| {
      var n := |Mask(amps, amps)|;
      MaskLength(freqs, amps, amps);
      MultLengthAccepts(seq(n, _ => length), PerChannel(seq(n, _ => increment)), Mask(amps, amps),
                        Mask(freqs, amps), seq(n, _ => phase));
    }
  }

  /** The longest of `n > 0` equal lengths is that length. */
  lemma MaxUniform(n: nat, length: real)
    requires n > 0
    ensures Max(seq(n, _ => length)) == length
  {
    var s := seq(n, _ => length);
    assert s[0] in s;
  }

  /** Channels that all play `length > 0`, swept by one common increment,
      make an element list that lasts `length` plus one increment per further
      sweep step. */
  lemma UniformDuration(length: real, increment: real, kept: seq<real>, fs: seq<real>, phases: seq<Phase>, nTau: int)
    requires |kept| > 0 && |fs| == |kept| && |phases| == |kept| && length > 0.0
    ensures var n := |kept|;
            var r := MultLengthElements(seq(n, _ => length), PerChannel(seq(n, _ => increment)), kept, fs, phases);
            r.Ok? && ElementLengthMax(r.value, nTau) == length + Sweep(nTau - 1, increment)
  {
    var n := |kept|;
    var lengths := seq(n, _ => length);
    var incs := seq(n, _ => increment);
    assert AllEqual(incs);
    MultLengthAccepts(lengths, PerChannel(incs), kept, fs, phases);
    MaxUniform(n, length);
    if increment == 0.0 {
      MultLengthFixedDuration(lengths, PerChannel(incs), kept, fs, phases);
      var els := MultLengthElements(lengths, PerChannel(incs), kept, fs, phases).value;
      ElementLengthIsStepIndependent(els, nTau - 1);
    } else {
      MultLengthSweptDuration(lengths, PerChannel(incs), kept, fs, phases, nTau);
      assert SanitizedLengths(lengths, incs) == lengths;
    }
  }

  /** With a positive length and a driven line, the element list lasts
      `length` at the first sweep step and grows by `increment` per step;
      only its first element carries the increment, and every element drives
      the driven lines' carriers. */
  lemma MultMwElementDuration(phase: Phase, length: real, freqs: seq<real>, amps: seq<real>, increment: real,
                              nTau: int)
    requires |freqs| == |amps| && length > 0.0
    requires exists i :: 0 <= i < |amps| && amps[i] != 0.0
    ensures var r := MultMwElement(phase, length, freqs, amps, increment);
            && r.Ok?
            && ElementLengthMax(r.value, nTau) == length + Sweep(nTau - 1, increment)
            && (forall i :: 0 <= i < |r.value| ==> r.value[i].MwElement? && r.value[i].freqs == Mask(freqs, amps))
            && (forall i :: 1 <= i < |r.value| ==> r.value[i].increment == 0.0)
  {
    KeptAmplitudes(amps);
    var kept := Mask(amps, amps);
    var n := |kept|;
    var fs := Mask(freqs, amps);
    MaskLength(freqs, amps, amps);
    UniformDuration(length, increment, kept, fs, seq(n, _ => phase), nTau);
    MultLengthShape(seq(n, _ => length), PerChannel(seq(n, _ => increment)), kept, fs, seq(n, _ => phase));
  }

  // ---------------------------------------------------------------------
  // The defect of the loader, seen from the optimal rotation

  /** A catalog with two pulses for the pi rotation on NV 1 cannot serve
      it; a catalog with one can. */
  lemma TwinTargetsFail(a: OcPulse, b: OcPulse)
    requires a.onNv == 1 && a.pix == 1.0 && b.onNv == 1 && b.pix == 1.0
    ensures PiOc([a, b], [0.0], [1.0], OneNv(1), 1.0, 1.0) == Err(ValueError)
    ensures PiOc([a], [0.0], [1.0], OneNv(1), 1.0, 1.0).Ok?
  {
    assert [a, b][..1] == [a] && [a][..0] == [];
    assert Matches([a], 1, 1.0) == [a];
    assert Matches([a, b], 1, 1.0) == [a, b];
    var nvs: seq<int> := [1];
    assert |Matches([a, b], nvs[0], 1.0)| == 2;
    assert !AllFound([a, b], nvs, 1.0);
    assert AllFound([a], [1], 1.0);
  }

  /** Two in-phase files that both default to NV 1 and a pi rotation: the
      catalog the loader as written builds from them makes the optimal pi
      rotation on NV 1 fail, while the corrected catalog serves it. */
  lemma DuplicateTargetBlocksOptimalPulse(files: seq<string>)
    requires IsExampleListing(files)
    ensures PiOc(LoadAsWritten([], files, files, "i", "q", NoParams), [0.0], [1.0], OneNv(1), 1.0, 1.0) == Err(ValueError)
    ensures PiOc(LoadUnique([], files, files, "i", "q", NoParams), [0.0], [1.0], OneNv(1), 1.0, 1.0).Ok?
  {
    var a := OcPulse(1, 1.0, files[0], files[1]);
    var b := OcPulse(1, 1.0, files[2], files[3]);
    assert LoadAsWritten([], files, files, "i", "q", NoParams) == [a, b] by {
      LoadAsWrittenKeepsDuplicates(files);
    }
    assert LoadUnique([], files, files, "i", "q", NoParams) == [a] by {
      LoadUniqueDropsDuplicates(files);
    }
    TwinTargetsFail(a, b);
  }

  /** One more NV looked up: when it has exactly one pulse, the found file
      names grow by that pulse's base names. */
  lemma FoundStep(catalog: seq<OcPulse>, nvs: seq<int>, k: nat, pix: real)
    requires k < |nvs| && AllFound(catalog, nvs[..k], pix) && |Matches(catalog, nvs[k], pix)| == 1
    ensures AllFound(catalog, nvs[..k + 1], pix)
    ensures var p := Matches(catalog, nvs[k], pix)[0];
            && FoundI(catalog, nvs[..k + 1], pix) == FoundI(catalog, nvs[..k], pix) + [Basename(p.fileI)]
            && FoundQ(catalog, nvs[..k + 1], pix) == FoundQ(catalog, nvs[..k], pix) + [Basename(p.fileQ)]
  {
    assert nvs[..k + 1] == nvs[..k] + [nvs[k]];
    FoundSnoc(catalog, nvs[..k], nvs[k], pix);
    FoundISnoc(catalog, nvs[..k], nvs[k], pix);
    FoundQSnoc(catalog, nvs[..k], nvs[k], pix);
  }

  lemma FoundSnoc(catalog: seq<OcPulse>, nvs: seq<int>, nv: int, pix: real)
    requires AllFound(catalog, nvs, pix) && |Matches(catalog, nv, pix)| == 1
    ensures AllFound(catalog, nvs + [nv], pix)
  {
    forall j | 0 <= j < |nvs| + 1
      ensures |Matches(catalog, (nvs + [nv])[j], pix)| == 1
    {
      if j < |nvs| {
        assert (nvs + [nv])[j] == nvs[j];
      }
    }
  }

  lemma FoundISnoc(catalog: seq<OcPulse>, nvs: seq<int>, nv: int, pix: real)
    requires AllFound(catalog, nvs, pix) && AllFound(catalog, nvs + [nv], pix) && |Matches(catalog, nv, pix)| == 1
    ensures FoundI(catalog, nvs + [nv], pix) == FoundI(catalog, nvs, pix) + [FoundFileI(catalog, nv, pix)]
  {
    var longer := FoundI(catalog, nvs + [nv], pix);
    var shorter := FoundI(catalog, nvs, pix);
    forall j | 0 <= j < |nvs|
      ensures longer[j] == shorter[j]
    {
      assert (nvs + [nv])[j] == nvs[j];
    }
    assert longer[|nvs|] == FoundFileI(catalog, nv, pix);
  }

  lemma FoundQSnoc(catalog: seq<OcPulse>, nvs: seq<int>, nv: int, pix: real)
    requires AllFound(catalog, nvs, pix) && AllFound(catalog, nvs + [nv], pix) && |Matches(catalog, nv, pix)| == 1
    ensures FoundQ(catalog, nvs + [nv], pix) == FoundQ(catalog, nvs, pix) + [FoundFileQ(catalog, nv, pix)]
  {
    var longer := FoundQ(catalog, nvs + [nv], pix);
    var shorter := FoundQ(catalog, nvs, pix);
    forall j | 0 <= j < |nvs|
      ensures longer[j] == shorter[j]
    {
      assert (nvs + [nv])[j] == nvs[j];
    }
    assert longer[|nvs|] == FoundFileQ(catalog, nv, pix);
  }


  // ---------------------------------------------------------------------
  // The generator object

  /** `find_q_files`: runs the listing through the directory filter, the
      stem filter and, for a base name that is just the in-phase marker, the
      quadrature-marker filter, always excluding the in-phase file itself. */
  method FindQFiles(path: string, iFile: string, allFiles: seq<string>, strI: string, strQ: string)
    returns (filesFiltered: seq<string>)
    ensures filesFiltered == QFileCandidates(path, iFile, allFiles, strI, strQ)
  {
    var fileNoPath := Basename(iFile);
    var fileNoQuadNoExt := SplitExt(RemoveAll(fileNoPath, strI)).0;
    var fileNoExt := SplitExt(fileNoPath).0;
    var extension := SplitExt(fileNoPath).1;
    var filters := [path, fileNoQuadNoExt];
    if fileNoExt == strI {
      filters := filters + [strQ + extension];
    }
    assert filters == QFilters(path, iFile, strI, strQ);
    filesFiltered := allFiles;
    var k := 0;
    while k < |filters|
      invariant 0 <= k <= |filters|
      invariant ApplyFilters(filesFiltered, filters[k..], iFile) == QFileCandidates(path, iFile, allFiles, strI, strQ)
    {
      assert filters[k..][1..] == filters[k + 1..];
      filesFiltered := FilterStr(filesFiltered, filters[k], iFile);
      k := k + 1;
    }
  }

  /** The `get_oc_pulse` loop over a list of pulses: the pulses with the
      target, in order. */
  method SelectMatching(pulses: seq<OcPulse>, onNv: int, pix: real) returns (retPulses: seq<OcPulse>)
    ensures retPulses == Matches(pulses, onNv, pix)
  {
    retPulses := [];
    var searchPulse := OcPulse(onNv, pix, [], []);
    var i := 0;
    while i < |pulses|
      invariant 0 <= i <= |pulses|
      invariant retPulses == Matches(pulses[..i], onNv, pix)
    {
      assert pulses[..i + 1][..i] == pulses[..i];
      if pulses[i].EqualTargetU(searchPulse) {
        retPulses := retPulses + [pulses[i]];
      }
      i := i + 1;
    }
    assert pulses[..i] == pulses;
  }

  /** `MultiNV_Generator`: the generator state this model keeps is the
      catalog of optimal-control pulses. The directory listing and the parser
      of the target from a file name are passed in. */
  class MultiNvGenerator {
    var optimalPulses: seq<OcPulse>

    /** `__init__` and `_init_optimal_control`: starts from an empty
        catalog and loads the listing with the default quadrature markers.
        It loads with the corrected loader, so the catalog never repeats a
        target; the source's `__init__` runs the loader as written, which
        can (`LoadOptimalPulsesFromPathAsWritten`). */
    constructor (fnames: seq<string>, parse: string -> OcParams)
      ensures optimalPulses == LoadUnique([], fnames, fnames, QuadI, QuadQ, parse)
      ensures UniqueTargets(optimalPulses)
      ensures forall p :: p in optimalPulses ==> FromListing(p, fnames, fnames, QuadI, QuadQ, parse)
    {
      optimalPulses := [];
      new;
      var loaded := LoadOptimalPulsesFromPath(fnames, QuadI, QuadQ, parse);
      optimalPulses := loaded;
      LoadUniqueSound([], fnames, fnames, QuadI, QuadQ, parse);
      assert [] + loaded == loaded;
    }

    /** `get_oc_pulse`: the catalog pulses with the target, in catalog order. */
    method GetOcPulse(onNv: int, pix: real) returns (retPulses: seq<OcPulse>)
      ensures retPulses == Matches(optimalPulses, onNv, pix)
    {
      retPulses := SelectMatching(optimalPulses, onNv, pix);
    }

    /** The pulse the file at index `i` of the listing yields, built as the
        body of the loader's loop builds it. */
    method PulseFromFile(fnames: seq<string>, i: nat, strI: string, strQ: string, parse: string -> OcParams)
      returns (r: Option<OcPulse>)
      requires i < |fnames|
      ensures r == PulseOf(fnames[i], fnames, strI, strQ, parse)
    {
      var file := fnames[i];
      var path := ParentDir(file);
      var fileNoPath := Basename(file);
      if !Contains(fileNoPath, strI) {
        return None;
      }
      var filesQ := FindQFiles(path, file, fnames, strI, strQ);
      if |filesQ| != 1 {
        return None;
      }
      var ocParams := parse(file);
      var onNv := ocParams.onNv.GetOr(1);
      var pix := ocParams.pix.GetOr(1.0);
      return Some(OcPulse(onNv, pix, file, filesQ[0]));
    }

    /** `load_optimal_pulses_from_path` as written: a pulse is skipped only
        when the catalog held before the call already has its target. */
    method LoadOptimalPulsesFromPathAsWritten(fnames: seq<string>, strI: string, strQ: string,
                                              parse: string -> OcParams)
      returns (loadedPulses: seq<OcPulse>)
      ensures loadedPulses == LoadAsWritten(optimalPulses, fnames, fnames, strI, strQ, parse)
    {
      var found := PulsesOf(fnames, fnames, strI, strQ, parse);
      loadedPulses := [];
      var i := 0;
      while i < |fnames|
        invariant 0 <= i <= |fnames|
        invariant loadedPulses == KeepAbsentFrom(optimalPulses, found[..i])
      {
        KeepAbsentFromStep(optimalPulses, found, i);
        var ocPulse := PulseFromFile(fnames, i, strI, strQ, parse);
        if ocPulse.Some? {
          var existPulses := GetOcPulse(ocPulse.value.onNv, ocPulse.value.pix);
          if |existPulses| == 0 {
            loadedPulses := loadedPulses + [ocPulse.value];
          }
        }
        i := i + 1;
      }
      assert found[..i] == found;
    }

    /** `load_optimal_pulses_from_path` with the duplicate check also looking
        at the pulses loaded so far. */
    method LoadOptimalPulsesFromPath(fnames: seq<string>, strI: string, strQ: string, parse: string -> OcParams)
      returns (loadedPulses: seq<OcPulse>)
      ensures loadedPulses == LoadUnique(optimalPulses, fnames, fnames, strI, strQ, parse)
    {
      var found := PulsesOf(fnames, fnames, strI, strQ, parse);
      loadedPulses := [];
      var i := 0;
      while i < |fnames|
        invariant 0 <= i <= |fnames|
        invariant loadedPulses == KeepFirst(optimalPulses, found[..i])
      {
        KeepFirstStep(optimalPulses, found, i);
        var ocPulse := PulseFromFile(fnames, i, strI, strQ, parse);
        if ocPulse.Some? {
          var existPulses := SelectMatching(optimalPulses + loadedPulses, ocPulse.value.onNv, ocPulse.value.pix);
          if |existPulses| == 0 {
            loadedPulses := loadedPulses + [ocPulse.value];
          }
        }
        i := i + 1;
      }
      assert found[..i] == found;
    }

    /** `_get_pi_oc_element` up to the call of the external optimal-control
        generator: checks the lengths, looks up one pulse per NV and joins
        the base names of their files. */
    method GetPiOcElement(phases: seq<real>, freqs: seq<real>, onNv: NvSelection, pix: real, scaleAmpl: real)
      returns (r: Result<OcRequest>)
      ensures r == PiOc(optimalPulses, phases, freqs, onNv, pix, scaleAmpl)
    {
      if |phases| != |freqs| {
        return Err(ValueError);
      }
      if onNv.NoNv? {
        return Err(TypeError);
      }
      var nvs := Targets(onNv);
      if |nvs| != |freqs| {
        return Err(ValueError);
      }
      var fileI: seq<string> := [];
      var fileQ: seq<string> := [];
      var k := 0;
      while k < |nvs|
        invariant 0 <= k <= |nvs|
        invariant AllFound(optimalPulses, nvs[..k], pix)
        invariant fileI == FoundI(optimalPulses, nvs[..k], pix)
        invariant fileQ == FoundQ(optimalPulses, nvs[..k], pix)
      {
        var ocPulse := GetOcPulse(nvs[k], pix);
        if |ocPulse| != 1 {
          assert !AllFound(optimalPulses, nvs, pix);
          return Err(ValueError);
        }
        FoundStep(optimalPulses, nvs, k, pix);
        fileI := fileI + [Basename(ocPulse[0].fileI)];
        fileQ := fileQ + [Basename(ocPulse[0].fileQ)];
        k := k + 1;
      }
      assert nvs[..k] == nvs;
      var filenameI := ListToCsv(fileI);
      var filenameQ := ListToCsv(fileQ);
      return Ok(OcRequest(freqs, phases, filenameI, filenameQ, scaleAmpl));
    }

    /** `get_pi_element`: masks the lines by amplitude (after the idle
        substitution), then builds a rectangular pulse on fresh arrays or
        prepares an optimal pulse. */
    method GetPiElement(xphase: real, freqs: seq<real>, amps: seq<real>, rabiPeriods: seq<real>, pix: real,
                        noAmps2Idle: bool, env: Envelope, onNv: NvSelection)
      returns (r: Result<PiPulse>)
      ensures r == PiElement(optimalPulses, xphase, freqs, amps, rabiPeriods, pix, noAmps2Idle, env, onNv)
    {
      var mwAmps := amps;
      var envType := env;
      if noAmps2Idle && |Mask(amps, amps)| == 0 {
        mwAmps := seq(|amps|, _ => AmpPlaceholder);
        envType := Rectangle;
      }
      if |rabiPeriods| != |mwAmps| || |freqs| != |mwAmps| {
        return Err(IndexError);
      }
      var lengths := Mask(PiLengths(rabiPeriods, pix), mwAmps);
      var keptAmps := Mask(mwAmps, mwAmps);
      var fs := Mask(freqs, mwAmps);
      if pix == 0.0 {
        return Ok(MwPulse([]));
      }
      match envType
      case Rectangle =>
        var lengthArr := new real[|lengths|](i requires 0 <= i < |lengths| => lengths[i]);
        var ampArr := new real[|keptAmps|](i requires 0 <= i < |keptAmps| => keptAmps[i]);
        assert lengthArr[..] == lengths && ampArr[..] == keptAmps;
        var els := MultipleMwMultLengthElement(lengthArr, Scalar(0.0), ampArr, fs, seq(|keptAmps|, _ => Deg(xphase)));
        if els.Err? {
          return Err(els.error);
        }
        return Ok(MwPulse(els.value));
      case Optimal =>
        var request := GetPiOcElement(seq(|keptAmps|, _ => xphase), fs, onNv, pix, 1.0);
        if request.Err? {
          return Err(request.error);
        }
        return Ok(OptimalPulse(request.value));
      case OtherEnvelope =>
        return Err(ValueError);
    }
  }
}
