/** Bookkeeping of the two-qubit tomography recipe
    (`generate_tomography_single`): the initial states and rotations it
    can lay down, the check that both lists are equally long, the loop that
    assembles the block, and the number of laser pulses it announces. */
module Tomography {
  import opened Wrappers
  import opened Elements

  /** `TomoInit`: the initial states, in the order of their enum values 0 to 13. */
  datatype TomoInit =
    | InitNone | Ux90On1 | Ux90On2 | Ux90OnBoth | Uy90On1 | Uy90On2 | Uy90OnBoth
    | Ux180On1 | Ux180On2 | Ux180OnBoth | EntCreateBell | EntCreateBellByCnot
    | Ux90On1Uy90On2 | Ux90On1Ux180On2

  /** `TomoRotations`: the rotations before read-out, enum values 0 to 8. */
  datatype TomoRotation =
    | RotNone | RotUx90On1 | RotUx90On2 | RotUx180On1 | RotUx180On2
    | RotC1not2 | RotC2not1 | RotC1not2Ux180On2 | RotC2not1Ux180On1

  /** What the block is made of: a pulse element (microwave or idle), or one
      of the laser gate, the delay gate and the wait after read-out. */
  datatype BlockItem = Pulse(el: Element) | Laser | Delay | Wait

  /** The elements the recipe prepares before the loop: the pi/2 and pi
      rotations on NV 1, NV 2 or both, the parallel optimal pi on both, and
      the CNOT blocks (built without laser). */
  datatype TomoElements = TomoElements(
    pi2On1: seq<BlockItem>, pi2On2: seq<BlockItem>, pi2OnBoth: seq<BlockItem>,
    pi2yOn1: seq<BlockItem>, pi2yOn2: seq<BlockItem>,
    piOn1: seq<BlockItem>, piOn2: seq<BlockItem>, piOcOnBoth: seq<BlockItem>,
    c1not2: seq<BlockItem>, c2not1: seq<BlockItem>)

  /** None of the prepared elements holds a laser gate. */
  predicate NoLaserIn(e: TomoElements)
  {
    && Laser !in e.pi2On1 && Laser !in e.pi2On2 && Laser !in e.pi2OnBoth && Laser !in e.pi2yOn1
    && Laser !in e.pi2yOn2 && Laser !in e.piOn1 && Laser !in e.piOn2 && Laser !in e.piOcOnBoth
    && Laser !in e.c1not2 && Laser !in e.c2not1
  }

  /** The initial states `init_element` can prepare. */
  predicate InitSupported(init: TomoInit)
  {
    !(init.Uy90OnBoth? || init.EntCreateBell? || init.EntCreateBellByCnot?)
  }

  /** The rotations `rotation_element` can prepare. */
  predicate RotationSupported(rot: TomoRotation)
  {
    rot.RotNone? || rot.RotC1not2? || rot.RotC2not1?
  }

  /** `init_element`: the elements preparing an initial state; a pi on both
      NVs is the pi on NV 1 followed by the pi on NV 2, or the parallel
      optimal pulse when the initial envelope is optimal. */
  function InitElements(init: TomoInit, e: TomoElements, initOptimal: bool): (r: Result<seq<BlockItem>>)
    ensures r.Ok? <==> InitSupported(init)
    ensures r.Err? ==> r.error == ValueError
  {
    match init
    case InitNone => Ok([])
    case Ux90On1 => Ok(e.pi2On1)
    case Ux90On2 => Ok(e.pi2On2)
    case Ux90OnBoth => Ok(e.pi2OnBoth)
    case Uy90On1 => Ok(e.pi2yOn1)
    case Uy90On2 => Ok(e.pi2yOn2)
    case Ux180On1 => Ok(e.piOn1)
    case Ux180On2 => Ok(e.piOn2)
    case Ux180OnBoth => if initOptimal then Ok(e.piOcOnBoth) else Ok(e.piOn1 + e.piOn2)
    case Ux90On1Uy90On2 => Ok(e.pi2On1 + e.pi2yOn2)
    case Ux90On1Ux180On2 => Ok(e.pi2On1 + e.piOn2)
    case _ => Err(ValueError)
  }

  /** `rotation_element`: nothing, or one of the two CNOT blocks. */
  function RotationElements(rot: TomoRotation, e: TomoElements): (r: Result<seq<BlockItem>>)
    ensures r.Ok? <==> RotationSupported(rot)
    ensures r.Err? ==> r.error == ValueError
  {
    match rot
    case RotNone => Ok([])
    case RotC1not2 => Ok(e.c1not2)
    case RotC2not1 => Ok(e.c2not1)
    case _ => Err(ValueError)
  }

  const ReadOut: seq<BlockItem> := [Laser, Delay, Wait]

  /** One pass of the inner loop: initial state, rotation and read-out, and
      with `alternating` the same again with a pi on NV `nv` (NV 2 for any
      label but 1) before the read-out. */
  function Round(init: TomoInit, rot: TomoRotation, nv: int, alternating: bool, e: TomoElements,
                 initOptimal: bool): (r: Result<seq<BlockItem>>)
    ensures r.Err? ==> r.error == ValueError
  {
    var i :- InitElements(init, e, initOptimal);
    var r :- RotationElements(rot, e);
    var piRead := if nv == 1 then e.piOn1 else e.piOn2;
    if alternating then Ok(i + r + ReadOut + (i + r + piRead + ReadOut))
    else Ok(i + r + ReadOut)
  }

  /** The passes of the inner loop over the NV labels `nvs`. */
  function Rounds(init: TomoInit, rot: TomoRotation, nvs: seq<int>, alternating: bool, e: TomoElements,
                  initOptimal: bool): (r: Result<seq<BlockItem>>)
    ensures r.Err? ==> r.error == ValueError
  {
    if nvs == [] then Ok([])
    else
      var done :- Rounds(init, rot, nvs[..|nvs| - 1], alternating, e, initOptimal);
      var next :- Round(init, rot, nvs[|nvs| - 1], alternating, e, initOptimal);
      Ok(done + next)
  }

  /** The labels of the inner loop: the NVs read out with `alternating`, a
      single dummy label otherwise. */
  function PiEndOn(piOnNv: seq<int>, alternating: bool): seq<int>
  {
    if alternating then piOnNv else [-1]
  }

  /** The block after the first `k` entries of the outer loop. */
  function BlockUpTo(rotations: seq<TomoRotation>, initStates: seq<TomoInit>, piOnNv: seq<int>,
                     alternating: bool, e: TomoElements, initOptimal: bool, k: nat): (r: Result<seq<BlockItem>>)
    requires |rotations| == |initStates| && k <= |rotations|
    ensures r.Err? ==> r.error == ValueError
  {
    if k == 0 then Ok([])
    else
      var done :- BlockUpTo(rotations, initStates, piOnNv, alternating, e, initOptimal, k - 1);
      var next :- Rounds(initStates[k - 1], rotations[k - 1], PiEndOn(piOnNv, alternating), alternating, e,
                         initOptimal);
      Ok(done + next)
  }

  /** The tomography block: rotations and initial states must be equally
      many. */
  function TomoBlock(rotations: seq<TomoRotation>, initStates: seq<TomoInit>, piOnNv: seq<int>,
                     alternating: bool, e: TomoElements, initOptimal: bool): Result<seq<BlockItem>>
  {
    if |rotations| != |initStates| then Err(ValueError)
    else BlockUpTo(rotations, initStates, piOnNv, alternating, e, initOptimal, |rotations|)
  }

  /** A failure stays a failure for the rest of the loop. */
  lemma {:induction false} BlockUpToFailurePersists(rotations: seq<TomoRotation>, initStates: seq<TomoInit>,
                                                    piOnNv: seq<int>, alternating: bool, e: TomoElements,
                                                    initOptimal: bool, k: nat, n: nat)
    requires |rotations| == |initStates| && k <= n <= |rotations|
    requires BlockUpTo(rotations, initStates, piOnNv, alternating, e, initOptimal, k) == Err(ValueError)
    decreases n - k
    ensures BlockUpTo(rotations, initStates, piOnNv, alternating, e, initOptimal, n) == Err(ValueError)
  {
    if k < n {
      BlockUpToFailurePersists(rotations, initStates, piOnNv, alternating, e, initOptimal, k + 1, n);
    }
  }

  /** Rounds fail as soon as one pass fails. */
  lemma {:induction false} RoundsFailurePersists(init: TomoInit, rot: TomoRotation, nvs: seq<int>, j: nat,
                                                 alternating: bool, e: TomoElements, initOptimal: bool)
    requires j <= |nvs|
    requires Rounds(init, rot, nvs[..j], alternating, e, initOptimal) == Err(ValueError)
    decreases |nvs| - j
    ensures Rounds(init, rot, nvs, alternating, e, initOptimal) == Err(ValueError)
  {
    if j < |nvs| {
      assert nvs[..j + 1][..j] == nvs[..j];
      RoundsFailurePersists(init, rot, nvs, j + 1, alternating, e, initOptimal);
    } else {
      assert nvs[..j] == nvs;
    }
  }

  /** One more label of the inner loop: its pass is appended to the passes
      so far. */
  lemma RoundsStep(init: TomoInit, rot: TomoRotation, nvs: seq<int>, j: nat, alternating: bool,
                   e: TomoElements, initOptimal: bool, done: seq<BlockItem>)
    requires j < |nvs|
    requires Rounds(init, rot, nvs[..j], alternating, e, initOptimal) == Ok(done)
    requires Round(init, rot, nvs[j], alternating, e, initOptimal).Ok?
    ensures Rounds(init, rot, nvs[..j + 1], alternating, e, initOptimal)
              == Ok(done + Round(init, rot, nvs[j], alternating, e, initOptimal).value)
  {
    var prefix := nvs[..j + 1];
    assert prefix[..|prefix| - 1] == nvs[..j] && prefix[|prefix| - 1] == nvs[j];
  }

  /** A label whose pass fails fails the whole inner loop. */
  lemma RoundsStepFails(init: TomoInit, rot: TomoRotation, nvs: seq<int>, j: nat, alternating: bool,
                        e: TomoElements, initOptimal: bool)
    requires j < |nvs|
    requires Round(init, rot, nvs[j], alternating, e, initOptimal).Err?
    ensures Rounds(init, rot, nvs, alternating, e, initOptimal) == Err(ValueError)
  {
    var prefix := nvs[..j + 1];
    assert prefix[|prefix| - 1] == nvs[j];
    RoundsFailurePersists(init, rot, nvs, j + 1, alternating, e, initOptimal);
  }

  /** A pass with a supported initial state and rotation: the read-out, and
      when alternating the same again with the pi on the label's NV. */
  lemma RoundParts(init: TomoInit, rot: TomoRotation, nv: int, alternating: bool, e: TomoElements,
                   initOptimal: bool)
    requires InitSupported(init) && RotationSupported(rot)
    ensures var i := InitElements(init, e, initOptimal).value;
            var r := RotationElements(rot, e).value;
            var piRead := if nv == 1 then e.piOn1 else e.piOn2;
            Round(init, rot, nv, alternating, e, initOptimal)
              == Ok(if alternating then i + r + ReadOut + (i + r + piRead + ReadOut) else i + r + ReadOut)
  {
  }

  /** One pass of the inner loop for NV label `rabiOnNv`: the initial state,
      the rotation and the read-out, and when alternating the same again with
      the pi on that NV before the read-out. */
  method ReadOutPass(initState: TomoInit, rotation: TomoRotation, rabiOnNv: int, alternating: bool,
                     e: TomoElements, initOptimal: bool)
    returns (pass: Result<seq<BlockItem>>)
    ensures pass == Round(initState, rotation, rabiOnNv, alternating, e, initOptimal)
  {
    var initEls := InitElements(initState, e, initOptimal);
    var rotEls := RotationElements(rotation, e);
    if initEls.Err? || rotEls.Err? {
      return Err(ValueError);
    }
    RoundParts(initState, rotation, rabiOnNv, alternating, e, initOptimal);
    var elements := initEls.value + rotEls.value + ReadOut;
    if alternating {
      var piReadElement := if rabiOnNv == 1 then e.piOn1 else e.piOn2;
      elements := elements + (initEls.value + rotEls.value + piReadElement + ReadOut);
    }
    return Ok(elements);
  }

  /** The inner loop of the block: for every label, the initial state, the
      rotation and the read-out (laser, delay, wait), twice when
      alternating, the second time with a pi on the label's NV before the
      read-out. */
  method ReadOutPasses(initState: TomoInit, rotation: TomoRotation, piEndOn: seq<int>, alternating: bool,
                       e: TomoElements, initOptimal: bool)
    returns (passes: Result<seq<BlockItem>>)
    ensures passes == Rounds(initState, rotation, piEndOn, alternating, e, initOptimal)
  {
    var block: seq<BlockItem> := [];
    var j := 0;
    while j < |piEndOn|
      invariant 0 <= j <= |piEndOn|
      invariant Rounds(initState, rotation, piEndOn[..j], alternating, e, initOptimal) == Ok(block)
    {
      var pass := ReadOutPass(initState, rotation, piEndOn[j], alternating, e, initOptimal);
      if pass.Err? {
        RoundsStepFails(initState, rotation, piEndOn, j, alternating, e, initOptimal);
        return Err(ValueError);
      }
      RoundsStep(initState, rotation, piEndOn, j, alternating, e, initOptimal, block);
      block := block + pass.value;
      j := j + 1;
    }
    assert piEndOn[..j] == piEndOn;
    return Ok(block);
  }

  /** The block loop of `generate_tomography_single`: checks that
      rotations and initial states are equally many, then appends the
      read-out passes of every rotation in turn. */
  method AssembleTomographyBlock(rotations: seq<TomoRotation>, initStates: seq<TomoInit>, piOnNv: seq<int>,
                                 alternating: bool, e: TomoElements, initOptimal: bool)
    returns (r: Result<seq<BlockItem>>)
    ensures r == TomoBlock(rotations, initStates, piOnNv, alternating, e, initOptimal)
  {
    if |rotations| != |initStates| {
      return Err(ValueError);
    }
    var rabiBlock: seq<BlockItem> := [];
    var idx := 0;
    while idx < |rotations|
      invariant 0 <= idx <= |rotations|
      invariant BlockUpTo(rotations, initStates, piOnNv, alternating, e, initOptimal, idx) == Ok(rabiBlock)
    {
      var piEndOn := if alternating then piOnNv else [-1];
      assert piEndOn == PiEndOn(piOnNv, alternating);
      var passes := ReadOutPasses(initStates[idx], rotations[idx], piEndOn, alternating, e, initOptimal);
      if passes.Err? {
        BlockUpToFailurePersists(rotations, initStates, piOnNv, alternating, e, initOptimal, idx + 1, |rotations|);
        return Err(ValueError);
      }
      rabiBlock := rabiBlock + passes.value;
      idx := idx + 1;
    }
    return Ok(rabiBlock);
  }

  /** The passes over the labels succeed exactly when there are no labels
      or the initial state and the rotation are both supported. */
  lemma {:induction false} RoundsAccepts(init: TomoInit, rot: TomoRotation, nvs: seq<int>, alternating: bool,
                                         e: TomoElements, initOptimal: bool)
    ensures Rounds(init, rot, nvs, alternating, e, initOptimal).Ok?
            <==> nvs == [] || (InitSupported(init) && RotationSupported(rot))
  {
    if nvs != [] {
      RoundsAccepts(init, rot, nvs[..|nvs| - 1], alternating, e, initOptimal);
    }
  }

  /** Every entry of the outer loop so far was supported. */
  predicate SupportedUpTo(rotations: seq<TomoRotation>, initStates: seq<TomoInit>, k: nat)
    requires |rotations| == |initStates| && k <= |rotations|
  {
    forall j :: 0 <= j < k ==> InitSupported(initStates[j]) && RotationSupported(rotations[j])
  }

  lemma {:induction false} BlockUpToAccepts(rotations: seq<TomoRotation>, initStates: seq<TomoInit>,
                                            piOnNv: seq<int>, alternating: bool, e: TomoElements,
                                            initOptimal: bool, k: nat)
    requires |rotations| == |initStates| && k <= |rotations|
    ensures BlockUpTo(rotations, initStates, piOnNv, alternating, e, initOptimal, k).Ok?
            <==> PiEndOn(piOnNv, alternating) == [] || SupportedUpTo(rotations, initStates, k)
  {
    if k > 0 {
      BlockUpToAccepts(rotations, initStates, piOnNv, alternating, e, initOptimal, k - 1);
      RoundsAccepts(initStates[k - 1], rotations[k - 1], PiEndOn(piOnNv, alternating), alternating, e,
                    initOptimal);
    }
  }

  /** The block is built exactly when rotations and initial states are
      equally many and, unless there is nothing to read out, every initial
      state and every rotation is one the recipe can prepare; otherwise it
      fails with a value error. */
  lemma TomoBlockAccepts(rotations: seq<TomoRotation>, initStates: seq<TomoInit>, piOnNv: seq<int>,
                         alternating: bool, e: TomoElements, initOptimal: bool)
    ensures var r := TomoBlock(rotations, initStates, piOnNv, alternating, e, initOptimal);
            && (r.Ok? <==> |rotations| == |initStates|
                           && ((alternating && piOnNv == [])
                               || forall j :: 0 <= j < |rotations|
                                    ==> InitSupported(initStates[j]) && RotationSupported(rotations[j])))
            && (r.Err? ==> r.error == ValueError)
  {
    if |rotations| == |initStates| {
      BlockUpToAccepts(rotations, initStates, piOnNv, alternating, e, initOptimal, |rotations|);
    }
  }

  /** `generate_tomography`: the Rabi drive runs on NV 1 or on NV 2; any
      other label is a value error. */
  function RabiDrive(rabiOnNv: int, mwOn1: seq<BlockItem>, mwOn2: seq<BlockItem>): (r: Result<seq<BlockItem>>)
    ensures r.Ok? <==> rabiOnNv == 1 || rabiOnNv == 2
    ensures r.Err? ==> r.error == ValueError
    ensures rabiOnNv == 1 ==> r == Ok(mwOn1)
    ensures rabiOnNv == 2 ==> r == Ok(mwOn2)
  {
    if rabiOnNv != 1 && rabiOnNv != 2 then Err(ValueError)
    else Ok(if rabiOnNv == 1 then mwOn1 else mwOn2)
  }

  // ---------------------------------------------------------------------
  // The announced number of laser pulses

  /** `num_of_points`: one point per rotation, times the number of NVs read
      out when alternating. */
  function NumOfPoints(numRotations: nat, numPiOnNv: nat, alternating: bool): nat
  {
    if alternating then numPiOnNv * numRotations else numRotations
  }

  /** `number_of_lasers`: two read-outs per point when alternating. */
  function NumberOfLasers(numOfPoints: nat, alternating: bool): nat
  {
    if alternating then 2 * numOfPoints else numOfPoints
  }

  function CountLasers(items: seq<BlockItem>): nat
  {
    if items == [] then 0 else (if items[0] == Laser then 1 else 0) + CountLasers(items[1..])
  }

  lemma {:induction false} CountLasersAppend(a: seq<BlockItem>, b: seq<BlockItem>)
    ensures CountLasers(a + b) == CountLasers(a) + CountLasers(b)
  {
    if a != [] {
      CountLasersAppend(a[1..], b);
      assert (a + b)[1..] == a[1..] + b;
    } else {
      assert a + b == b;
    }
  }

  lemma {:induction false} NoLaserCount(items: seq<BlockItem>)
    requires Laser !in items
    ensures CountLasers(items) == 0
  {
    if items != [] {
      assert items[1..] == items[1..] && forall x :: x in items[1..] ==> x in items;
      NoLaserCount(items[1..]);
    }
  }

  lemma ReadOutHasOneLaser()
    ensures CountLasers(ReadOut) == 1
  {
    assert ReadOut[1..] == [Delay, Wait] && ReadOut[1..][1..] == [Wait] && ReadOut[1..][1..][1..] == [];
  }

  /** Laser pulses in one pass. */
  function LasersPerRound(alternating: bool): nat
  {
    if alternating then 2 else 1
  }

  lemma SegmentLasers(i: seq<BlockItem>, r: seq<BlockItem>, extra: seq<BlockItem>)
    requires Laser !in i && Laser !in r && Laser !in extra
    ensures CountLasers(i + r + extra + ReadOut) == 1
  {
    NoLaserCount(i);
    NoLaserCount(r);
    NoLaserCount(extra);
    ReadOutHasOneLaser();
    CountLasersAppend(i, r);
    CountLasersAppend(i + r, extra);
    CountLasersAppend(i + r + extra, ReadOut);
  }

  /** A pass that succeeds read out once, or twice when alternating. */
  lemma RoundLasers(init: TomoInit, rot: TomoRotation, nv: int, alternating: bool, e: TomoElements,
                    initOptimal: bool)
    requires NoLaserIn(e)
    requires Round(init, rot, nv, alternating, e, initOptimal).Ok?
    ensures CountLasers(Round(init, rot, nv, alternating, e, initOptimal).value) == LasersPerRound(alternating)
  {
    var i := InitElements(init, e, initOptimal).value;
    var r := RotationElements(rot, e).value;
    assert Laser !in i && Laser !in r;
    SegmentLasers(i, r, []);
    assert i + r + [] + ReadOut == i + r + ReadOut;
    if alternating {
      var piRead := if nv == 1 then e.piOn1 else e.piOn2;
      SegmentLasers(i, r, piRead);
      CountLasersAppend(i + r + ReadOut, i + r + piRead + ReadOut);
    }
  }

  lemma {:induction false} RoundsLasers(init: TomoInit, rot: TomoRotation, nvs: seq<int>, alternating: bool,
                                        e: TomoElements, initOptimal: bool)
    requires NoLaserIn(e)
    requires Rounds(init, rot, nvs, alternating, e, initOptimal).Ok?
    ensures CountLasers(Rounds(init, rot, nvs, alternating, e, initOptimal).value) == |nvs| * LasersPerRound(alternating)
  {
    if nvs != [] {
      var init' := nvs[..|nvs| - 1];
      RoundsLasers(init, rot, init', alternating, e, initOptimal);
      RoundLasers(init, rot, nvs[|nvs| - 1], alternating, e, initOptimal);
      CountLasersAppend(Rounds(init, rot, init', alternating, e, initOptimal).value,
                        Round(init, rot, nvs[|nvs| - 1], alternating, e, initOptimal).value);
      assert (|nvs| - 1) * LasersPerRound(alternating) + LasersPerRound(alternating) == |nvs| * LasersPerRound(alternating);
    }
  }

  lemma {:induction false} BlockUpToLasers(rotations: seq<TomoRotation>, initStates: seq<TomoInit>, piOnNv: seq<int>,
                                           alternating: bool, e: TomoElements, initOptimal: bool, k: nat)
    requires NoLaserIn(e)
    requires |rotations| == |initStates| && k <= |rotations|
    requires BlockUpTo(rotations, initStates, piOnNv, alternating, e, initOptimal, k).Ok?
    ensures var perRotation := |PiEndOn(piOnNv, alternating)| * LasersPerRound(alternating);
            CountLasers(BlockUpTo(rotations, initStates, piOnNv, alternating, e, initOptimal, k).value)
              == k * perRotation
  {
    if k > 0 {
      var perRotation := |PiEndOn(piOnNv, alternating)| * LasersPerRound(alternating);
      var nvs := PiEndOn(piOnNv, alternating);
      BlockUpToLasers(rotations, initStates, piOnNv, alternating, e, initOptimal, k - 1);
      RoundsLasers(initStates[k - 1], rotations[k - 1], nvs, alternating, e, initOptimal);
      CountLasersAppend(BlockUpTo(rotations, initStates, piOnNv, alternating, e, initOptimal, k - 1).value,
                        Rounds(initStates[k - 1], rotations[k - 1], nvs, alternating, e, initOptimal).value);
      assert (k - 1) * perRotation + perRotation == k * perRotation;
    }
  }

  /** The block holds exactly as many laser pulses as the recipe announces
      in `number_of_lasers`, given that the prepared elements hold none. */
  lemma LaserCountMatchesAnnounced(rotations: seq<TomoRotation>, initStates: seq<TomoInit>, piOnNv: seq<int>,
                                   alternating: bool, e: TomoElements, initOptimal: bool)
    requires NoLaserIn(e)
    requires TomoBlock(rotations, initStates, piOnNv, alternating, e, initOptimal).Ok?
    ensures CountLasers(TomoBlock(rotations, initStates, piOnNv, alternating, e, initOptimal).value)
            == NumberOfLasers(NumOfPoints(|rotations|, |piOnNv|, alternating), alternating)
  {
    BlockUpToLasers(rotations, initStates, piOnNv, alternating, e, initOptimal, |rotations|);
    assert |PiEndOn(piOnNv, alternating)| == if alternating then |piOnNv| else 1;
    PointsTimesLasers(|rotations|, |piOnNv|, alternating);
  }

  lemma PointsTimesLasers(n: nat, m: nat, alternating: bool)
    ensures n * ((if alternating then m else 1) * LasersPerRound(alternating))
            == NumberOfLasers(NumOfPoints(n, m, alternating), alternating)
  {
  }
}
