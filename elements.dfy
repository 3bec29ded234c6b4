/** Pulse block elements as the generator sees them, and the two static
    helpers that measure a list of them (`get_element_length`,
    `get_element_length_max`). The element constructors themselves
    (`_get_multiple_mw_element`, `_get_idle_element`, ...) belong to the base
    generator and are modelled as plain record constructors. */
module Elements {
  import opened Wrappers
  import opened Seqs

  /** A microwave phase in degrees, or NaN, which marks a channel that has to
      be switched off. */
  datatype Phase = Nan | Deg(degrees: real)

  /** An element of a pulse block: a duration `initLength` that grows by
      `increment` per sweep step, and for a microwave element one
      (amplitude, frequency, phase) slot per drive line. */
  datatype Element =
    | MwElement(initLength: real, increment: real, amps: seq<real>, freqs: seq<real>, phases: seq<Phase>)
    | IdleElement(initLength: real, increment: real)

  function InitLengths(els: seq<Element>): (r: seq<real>)
    ensures |r| == |els| && forall i :: 0 <= i < |els| ==> r[i] == els[i].initLength
  {
    seq(|els|, i requires 0 <= i < |els| => els[i].initLength)
  }

  function Increments(els: seq<Element>): (r: seq<real>)
    ensures |r| == |els| && forall i :: 0 <= i < |els| ==> r[i] == els[i].increment
  {
    seq(|els|, i requires 0 <= i < |els| => els[i].increment)
  }

  /** `get_element_length`: the duration of an element list, defined only
      when the increments cancel, so that it does not depend on the sweep step. */
  function ElementLength(els: seq<Element>): Result<real>
  {
    if Sum(Increments(els)) != 0.0 then Err(ValueError)
    else Ok(Sum(InitLengths(els)))
  }

  /** `get_element_length_max`: the summed initial durations plus
      `nTau - 1` times the summed increments. */
  function ElementLengthMax(els: seq<Element>, nTau: int): real
  {
    Sum(InitLengths(els)) + Sweep(nTau - 1, Sum(Increments(els)))
  }

  /** `steps` sweep steps of `inc` each. */
  function Sweep(steps: int, inc: real): real
  {
    steps as real * inc
  }

  /** `get_element_length_max` from the two sums it is made of. */
  lemma ElementLengthMaxFromSums(els: seq<Element>, nTau: int, init: real, inc: real)
    requires Sum(InitLengths(els)) == init && Sum(Increments(els)) == inc
    ensures ElementLengthMax(els, nTau) == init + Sweep(nTau - 1, inc)
  {
  }

  /** Reference definition: the duration of the list when the sweep is at step
      `step`, summed element by element. */
  function LengthAtStep(els: seq<Element>, step: int): real
  {
    if els == [] then 0.0
    else els[0].initLength + step as real * els[0].increment + LengthAtStep(els[1..], step)
  }

  /** The aggregated formula of `get_element_length_max` is the duration of
      the list at the last of `nTau` sweep steps. */
  lemma {:induction false} ElementLengthMaxIsLastStep(els: seq<Element>, nTau: int)
    ensures ElementLengthMax(els, nTau) == LengthAtStep(els, nTau - 1)
  {
    if els != [] {
      ElementLengthMaxIsLastStep(els[1..], nTau);
      assert InitLengths(els)[1..] == InitLengths(els[1..]);
      assert Increments(els)[1..] == Increments(els[1..]);
    }
  }

  /** When `get_element_length` succeeds, every sweep step has that duration,
      so it agrees with `get_element_length_max` for any number of steps. */
  lemma ElementLengthIsStepIndependent(els: seq<Element>, step: int)
    requires ElementLength(els).Ok?
    ensures LengthAtStep(els, step) == ElementLength(els).value
    ensures ElementLengthMax(els, step + 1) == ElementLength(els).value
  {
    ElementLengthMaxIsLastStep(els, step + 1);
  }

  /** `get_element_length` refuses exactly the lists whose duration changes
      from one sweep step to the next. */
  lemma ElementLengthFailsIffSwept(els: seq<Element>)
    ensures ElementLength(els).Err? <==> LengthAtStep(els, 1) != LengthAtStep(els, 0)
    ensures ElementLength(els).Err? ==> ElementLength(els).error == ValueError
  {
    ElementLengthMaxIsLastStep(els, 1);
    ElementLengthMaxIsLastStep(els, 2);
  }

  /** Both measures are additive over concatenated element lists. */
  lemma ElementLengthMaxAppend(a: seq<Element>, b: seq<Element>, nTau: int)
    ensures ElementLengthMax(a + b, nTau) == ElementLengthMax(a, nTau) + ElementLengthMax(b, nTau)
  {
    assert InitLengths(a + b) == InitLengths(a) + InitLengths(b);
    assert Increments(a + b) == Increments(a) + Increments(b);
    SumAppend(InitLengths(a), InitLengths(b));
    SumAppend(Increments(a), Increments(b));
  }
}
