/** Bookkeeping of the DEER decoupling recipe (`generate_deer_dd_tau`): where
    a free-evolution half sits in the decoupling train (`get_deer_pos`), which
    of the four idle elements fills it (`tauhalf_element_function`), the order
    of elements the decoupling loop lays down, the phases of its pi pulses in
    the first pass and in the alternating copy, and the check that rejects a
    negative pulse spacing. */
module Deer {
  import opened Wrappers
  import opened Elements

  /** `get_deer_pos`: the position of a free-evolution half before or after
      the pi pulse on NV 1 of pulse `iDdSuborder` in order `iDdOrder`. */
  datatype DeerPos = DeerPos(first: bool, last: bool, inBetween: bool)

  function GetDeerPos(iDdOrder: int, ddOrder: int, iDdSuborder: int, suborder: int, beforePiOn1: bool): (r: DeerPos)
    ensures !(r.first && r.last)
    ensures r.inBetween <==> !r.first && !r.last
    ensures r.first ==> beforePiOn1
    ensures r.last ==> !beforePiOn1
  {
    var first := iDdOrder == 0 && iDdSuborder == 0 && beforePiOn1;
    var last := iDdOrder == ddOrder - 1 && iDdSuborder == suborder - 1 && !beforePiOn1;
    DeerPos(first, last, !first && !last)
  }

  /** The four idle elements a free-evolution half can be: the fixed first
      and last halves, and the swept halves before and after a pi pulse on
      NV 1. */
  datatype TauHalf = TauFirst | TauLast | TauBef | TauAft

  /** `tauhalf_element_function`: the first half of the train is the fixed
      first element and the last one the fixed last element; any other half
      is the swept "before" element ahead of a pi pulse on NV 1 and the swept
      "after" element behind one. */
  function TauHalfElement(iDdOrder: int, ddOrder: int, iDdSuborder: int, suborder: int, beforePiOn1: bool)
    : (r: TauHalf)
    ensures beforePiOn1 ==> (r == TauFirst <==> iDdOrder == 0 && iDdSuborder == 0) && (r == TauFirst || r == TauBef)
    ensures !beforePiOn1 ==> (r == TauLast <==> iDdOrder == ddOrder - 1 && iDdSuborder == suborder - 1)
                             && (r == TauLast || r == TauAft)
  {
    var pos := GetDeerPos(iDdOrder, ddOrder, iDdSuborder, suborder, beforePiOn1);
    if pos.first then (if beforePiOn1 then TauFirst else TauBef)
    else if pos.last then (if beforePiOn1 then TauAft else TauLast)
    else if beforePiOn1 then TauBef else TauAft
  }

  // ---------------------------------------------------------------------
  // The decoupling loop

  /** What the decoupling loop appends: a free-evolution half, the pi pulse
      on NV 1 or NV 2 of a pulse number (standing for the element list
      `pi_element_function` returns for that pulse's phase), or the final
      rotation on NV 2 (`end_pix_on_2`). */
  datatype DeerItem = Tau(kind: TauHalf) | PiOn1(pulse: nat) | PiOn2(pulse: nat) | EndPiOn2(pulse: nat)

  /** The items of pulse `p` in order `n`: half, pi on NV 1, half, then the
      pi on NV 2, or at the very last pulse the optional end rotation. */
  function Slot(ddOrder: nat, suborder: nat, n: nat, p: nat, endPix: bool): seq<DeerItem>
  {
    [Tau(TauHalfElement(n, ddOrder, p, suborder, true)), PiOn1(p), Tau(TauHalfElement(n, ddOrder, p, suborder, false))]
    + (if GetDeerPos(n, ddOrder, p, suborder, false).last then (if endPix then [EndPiOn2(p)] else [])
       else [PiOn2(p)])
  }

  /** The items laid down before pulse `p` of order `n`. */
  function DdItems(ddOrder: nat, suborder: nat, n: nat, p: nat, endPix: bool): seq<DeerItem>
    requires p <= suborder
    decreases n, p
  {
    if p > 0 then DdItems(ddOrder, suborder, n, p - 1, endPix) + Slot(ddOrder, suborder, n, p - 1, endPix)
    else if n > 0 then DdItems(ddOrder, suborder, n - 1, suborder, endPix)
    else []
  }

  /** The nested `dd_order` x `suborder` loop of `generate_deer_dd_tau`. */
  method DeerDdLoop(ddOrder: nat, suborder: nat, endPix: bool) returns (ddBlock: seq<DeerItem>)
    ensures ddBlock == DdItems(ddOrder, suborder, ddOrder, 0, endPix)
  {
    ddBlock := [];
    var n := 0;
    while n < ddOrder
      invariant 0 <= n <= ddOrder
      invariant ddBlock == DdItems(ddOrder, suborder, n, 0, endPix)
    {
      var pulseNumber := 0;
      while pulseNumber < suborder
        invariant 0 <= pulseNumber <= suborder
        invariant ddBlock == DdItems(ddOrder, suborder, n, pulseNumber, endPix)
      {
        ghost var before := ddBlock;
        ddBlock := ddBlock + [Tau(TauHalfElement(n, ddOrder, pulseNumber, suborder, true))];
        ddBlock := ddBlock + [PiOn1(pulseNumber)];
        ddBlock := ddBlock + [Tau(TauHalfElement(n, ddOrder, pulseNumber, suborder, false))];
        var pos := GetDeerPos(n, ddOrder, pulseNumber, suborder, false);
        if pos.last {
          if endPix {
            ddBlock := ddBlock + [EndPiOn2(pulseNumber)];
          }
        } else {
          ddBlock := ddBlock + [PiOn2(pulseNumber)];
        }
        SlotAppended(ddOrder, suborder, n, pulseNumber, endPix, before);
        pulseNumber := pulseNumber + 1;
      }
      n := n + 1;
    }
  }

  /** The appends of one pass of the inner loop lay down one slot. */
  lemma SlotAppended(ddOrder: nat, suborder: nat, n: nat, p: nat, endPix: bool, before: seq<DeerItem>)
    ensures var x := Tau(TauHalfElement(n, ddOrder, p, suborder, true));
            var z := Tau(TauHalfElement(n, ddOrder, p, suborder, false));
            var mid := before + [x] + [PiOn1(p)] + [z];
            && (GetDeerPos(n, ddOrder, p, suborder, false).last && endPix ==>
                  mid + [EndPiOn2(p)] == before + Slot(ddOrder, suborder, n, p, endPix))
            && (GetDeerPos(n, ddOrder, p, suborder, false).last && !endPix ==>
                  mid == before + Slot(ddOrder, suborder, n, p, endPix))
            && (!GetDeerPos(n, ddOrder, p, suborder, false).last ==>
                  mid + [PiOn2(p)] == before + Slot(ddOrder, suborder, n, p, endPix))
  {
  }

  /** The kinds of item the counts below tell apart. */
  datatype Kind = KPiOn1 | KPiOn2 | KEndPiOn2 | KFirst | KLast | KBef | KAft

  function KindOf(x: DeerItem): Kind
  {
    match x
    case Tau(TauFirst) => KFirst
    case Tau(TauLast) => KLast
    case Tau(TauBef) => KBef
    case Tau(TauAft) => KAft
    case PiOn1(_) => KPiOn1
    case PiOn2(_) => KPiOn2
    case EndPiOn2(_) => KEndPiOn2
  }

  /** How many items are of kind `k`. */
  function Count(items: seq<DeerItem>, k: Kind): nat
  {
    if items == [] then 0
    else (if KindOf(items[0]) == k then 1 else 0) + Count(items[1..], k)
  }

  lemma {:induction false} CountAppend(a: seq<DeerItem>, b: seq<DeerItem>, k: Kind)
    ensures Count(a + b, k) == Count(a, k) + Count(b, k)
  {
    if a != [] {
      CountAppend(a[1..], b, k);
      assert (a + b)[1..] == a[1..] + b;
    } else {
      assert a + b == b;
    }
  }

  lemma CountCons(x: DeerItem, tail: seq<DeerItem>, k: Kind)
    ensures Count([x] + tail, k) == (if KindOf(x) == k then 1 else 0) + Count(tail, k)
  {
    assert ([x] + tail)[1..] == tail;
  }

  lemma ThreeCons(x: DeerItem, y: DeerItem, z: DeerItem, tail: seq<DeerItem>)
    ensures [x, y, z] + tail == [x] + ([y] + ([z] + tail))
  {
  }

  /** The number of items of each kind in one slot: one pi on NV 1, a fixed
      first half only in the first slot, a fixed last half only in the last
      one, which also trades its pi on NV 2 for the optional end rotation. */
  function SlotTally(first: bool, last: bool, endPix: bool, k: Kind): nat
  {
    match k
    case KPiOn1 => 1
    case KPiOn2 => if last then 0 else 1
    case KEndPiOn2 => if last && endPix then 1 else 0
    case KFirst => if first then 1 else 0
    case KLast => if last then 1 else 0
    case KBef => if first then 0 else 1
    case KAft => if last then 0 else 1
  }

  lemma SlotCounts(ddOrder: nat, suborder: nat, n: nat, p: nat, endPix: bool, k: Kind)
    requires n < ddOrder && p < suborder
    ensures Count(Slot(ddOrder, suborder, n, p, endPix), k) ==
            SlotTally(n == 0 && p == 0, n == ddOrder - 1 && p == suborder - 1, endPix, k)
  {
    var first := n == 0 && p == 0;
    var last := n == ddOrder - 1 && p == suborder - 1;
    SlotCountsByItem(ddOrder, suborder, n, p, endPix, k);
    assert KindOf(Tau(TauHalfElement(n, ddOrder, p, suborder, true))) == if first then KFirst else KBef;
    assert KindOf(Tau(TauHalfElement(n, ddOrder, p, suborder, false))) == if last then KLast else KAft;
  }

  /** The count over a slot, item by item: the two halves, the pi on NV 1
      and what follows it. */
  lemma SlotCountsByItem(ddOrder: nat, suborder: nat, n: nat, p: nat, endPix: bool, k: Kind)
    ensures var last := n == ddOrder - 1 && p == suborder - 1;
            Count(Slot(ddOrder, suborder, n, p, endPix), k) ==
              (if KindOf(Tau(TauHalfElement(n, ddOrder, p, suborder, true))) == k then 1 else 0)
              + (if k == KPiOn1 then 1 else 0)
              + (if KindOf(Tau(TauHalfElement(n, ddOrder, p, suborder, false))) == k then 1 else 0)
              + (if last then (if endPix && k == KEndPiOn2 then 1 else 0) else (if k == KPiOn2 then 1 else 0))
  {
    var last := n == ddOrder - 1 && p == suborder - 1;
    var x := Tau(TauHalfElement(n, ddOrder, p, suborder, true));
    var z := Tau(TauHalfElement(n, ddOrder, p, suborder, false));
    var tail: seq<DeerItem> := if last then (if endPix then [EndPiOn2(p)] else []) else [PiOn2(p)];
    assert Slot(ddOrder, suborder, n, p, endPix) == [x, PiOn1(p), z] + tail;
    ThreeCons(x, PiOn1(p), z, tail);
    var zt := [z] + tail;
    CountCons(z, tail, k);
    CountCons(PiOn1(p), zt, k);
    CountCons(x, [PiOn1(p)] + zt, k);
    if tail != [] {
      CountCons(tail[0], [], k);
      assert tail == [tail[0]] + [];
    }
  }

  /** The number of items of each kind before pulse `p` of order `n`, with
      `done` pulses laid down: `done` pi pulses on NV 1, the fixed first half
      once some pulse is done, the fixed last half only once all are, and the
      swept halves filling the remaining places. */
  function TrainTally(done: nat, complete: bool, endPix: bool, k: Kind): int
  {
    match k
    case KPiOn1 => done
    case KPiOn2 => if complete then done - 1 else done
    case KEndPiOn2 => if complete && endPix then 1 else 0
    case KFirst => if done > 0 then 1 else 0
    case KLast => if complete then 1 else 0
    case KBef => if done > 0 then done - 1 else 0
    case KAft => if complete then done - 1 else done
  }

  /** Pulses laid down before pulse `p` of order `n`. */
  function Done(n: nat, p: nat, suborder: nat): nat
  {
    n * suborder + p
  }

  lemma DoneSteps(n: nat, p: nat, suborder: nat)
    requires suborder >= 1
    ensures p > 0 ==> Done(n, p, suborder) == Done(n, p - 1, suborder) + 1
    ensures n > 0 ==> Done(n, 0, suborder) == Done(n - 1, suborder, suborder) && Done(n, 0, suborder) >= 1
  {
    if n > 0 {
      assert (n - 1) * suborder + suborder == n * suborder;
      assert n * suborder >= suborder;
    }
  }

  /** Laying down one more slot adds the slot's tally to the train's. */
  lemma TallyStep(d: nat, first: bool, last: bool, endPix: bool, k: Kind)
    requires first <==> d == 0
    ensures TrainTally(d + 1, last, endPix, k) == TrainTally(d, false, endPix, k) + SlotTally(first, last, endPix, k)
  {
  }

  lemma DoneZero(n: nat, p: nat, suborder: nat)
    requires suborder >= 1
    ensures Done(n, p, suborder) == 0 <==> n == 0 && p == 0
  {
    if n > 0 {
      assert n * suborder >= suborder;
    }
  }

  /** One more slot of order `n`, from the counts before it. */
  lemma SlotStepCounts(ddOrder: nat, suborder: nat, n: nat, p: nat, endPix: bool, k: Kind)
    requires ddOrder >= 1 && suborder >= 1 && 0 < p <= suborder && n < ddOrder
    requires Count(DdItems(ddOrder, suborder, n, p - 1, endPix), k) == TrainTally(Done(n, p - 1, suborder), false, endPix, k)
    ensures Count(DdItems(ddOrder, suborder, n, p, endPix), k) ==
            TrainTally(Done(n, p, suborder), n == ddOrder - 1 && p == suborder, endPix, k)
  {
    var before := DdItems(ddOrder, suborder, n, p - 1, endPix);
    var slot := Slot(ddOrder, suborder, n, p - 1, endPix);
    var d := Done(n, p - 1, suborder);
    var first := n == 0 && p - 1 == 0;
    var last := n == ddOrder - 1 && p - 1 == suborder - 1;
    assert Count(slot, k) == SlotTally(first, last, endPix, k) by {
      SlotCounts(ddOrder, suborder, n, p - 1, endPix, k);
    }
    assert Count(before + slot, k) == Count(before, k) + Count(slot, k) by {
      CountAppend(before, slot, k);
    }
    DoneSteps(n, p, suborder);
    DoneZero(n, p - 1, suborder);
    TallyStep(d, first, last, endPix, k);
  }

  lemma {:induction false} DdItemsCounts(ddOrder: nat, suborder: nat, n: nat, p: nat, endPix: bool, k: Kind)
    requires ddOrder >= 1 && suborder >= 1 && p <= suborder && (n < ddOrder || (n == ddOrder && p == 0))
    decreases n, p
    ensures Count(DdItems(ddOrder, suborder, n, p, endPix), k) ==
            TrainTally(Done(n, p, suborder), n == ddOrder || (n == ddOrder - 1 && p == suborder), endPix, k)
  {
    if p > 0 {
      DdItemsCounts(ddOrder, suborder, n, p - 1, endPix, k);
      SlotStepCounts(ddOrder, suborder, n, p, endPix, k);
    } else if n > 0 {
      DoneSteps(n, p, suborder);
      DdItemsCounts(ddOrder, suborder, n - 1, suborder, endPix, k);
    }
  }



  /** The whole train of a decoupling sequence of order `ddOrder` with
      `suborder` pulses each: a pi pulse on NV 1 per pulse, a pi pulse on
      NV 2 after every pulse but the last, exactly one fixed first and one
      fixed last half, a swept half on each side of every other pulse on
      NV 1, and the end rotation exactly when asked for. */
  lemma DeerTrainCounts(ddOrder: nat, suborder: nat, endPix: bool)
    requires ddOrder >= 1 && suborder >= 1
    ensures var items := DdItems(ddOrder, suborder, ddOrder, 0, endPix);
            var pulses := ddOrder * suborder;
            && Count(items, KPiOn1) == pulses
            && Count(items, KPiOn2) == pulses - 1
            && Count(items, KEndPiOn2) == (if endPix then 1 else 0)
            && Count(items, KFirst) == 1
            && Count(items, KLast) == 1
            && Count(items, KBef) == pulses - 1
            && Count(items, KAft) == pulses - 1
  {
    DoneSteps(ddOrder, 0, suborder);
    assert Done(ddOrder, 0, suborder) == ddOrder * suborder;
    forall k: Kind
      ensures Count(DdItems(ddOrder, suborder, ddOrder, 0, endPix), k) == TrainTally(ddOrder * suborder, true, endPix, k)
    {
      DdItemsCounts(ddOrder, suborder, ddOrder, 0, endPix, k);
    }
  }

  // ---------------------------------------------------------------------
  // Phases of the pi pulses, and the alternating copy of the train

  /** An item of the train once its pi pulse is generated: a free-evolution
      half, or a pi pulse on NV 1, on NV 2, or the end rotation on NV 2, each
      with the phase it is generated with. */
  datatype PhasedItem = PhasedTau(kind: TauHalf) | PhasedOn1(phase: real) | PhasedOn2(phase: real)
                      | PhasedEndOn2(phase: real)

  /** The phase lists hold an entry for the pulse number of `x`: the pattern of
      NV 1 for its pulses, `nv2` for the pulses on NV 2. */
  predicate HasPhase(x: DeerItem, nv1: seq<real>, nv2: seq<real>)
  {
    match x
    case Tau(_) => true
    case PiOn1(p) => p < |nv1|
    case PiOn2(p) => p < |nv2|
    case EndPiOn2(p) => p < |nv2|
  }

  /** Generates the pulses of a train in turn: a pulse on NV 1 takes the
      phase of its pulse number in `nv1`, one on NV 2 that in `nv2`; a pulse
      number past the end of its list is Python's `IndexError`. */
  function PhasePass(items: seq<DeerItem>, nv1: seq<real>, nv2: seq<real>): (r: Result<seq<PhasedItem>>)
    ensures r.Ok? <==> forall i :: 0 <= i < |items| ==> HasPhase(items[i], nv1, nv2)
    ensures r.Err? ==> r.error == IndexError
    ensures r.Ok? ==> |r.value| == |items|
  {
    if items == [] then Ok([])
    else if !HasPhase(items[0], nv1, nv2) then Err(IndexError)
    else
      var head := match items[0]
        case Tau(k) => PhasedTau(k)
        case PiOn1(p) => PhasedOn1(nv1[p])
        case PiOn2(p) => PhasedOn2(nv2[p])
        case EndPiOn2(p) => PhasedEndOn2(nv2[p]);
      var tail :- PhasePass(items[1..], nv1, nv2);
      Ok([head] + tail)
  }

  /** Item by item: a half stays the same half, and each pi pulse carries the
      phase of its own pulse number in the list of its NV. */
  lemma {:induction false} PhasePassAt(items: seq<DeerItem>, nv1: seq<real>, nv2: seq<real>, i: nat)
    requires PhasePass(items, nv1, nv2).Ok? && i < |items|
    decreases i
    ensures var y := PhasePass(items, nv1, nv2).value[i];
            match items[i]
            case Tau(k) => y == PhasedTau(k)
            case PiOn1(p) => p < |nv1| && y == PhasedOn1(nv1[p])
            case PiOn2(p) => p < |nv2| && y == PhasedOn2(nv2[p])
            case EndPiOn2(p) => p < |nv2| && y == PhasedEndOn2(nv2[p])
  {
    if i > 0 {
      PhasePassAt(items[1..], nv1, nv2, i - 1);
      assert items[1..][i - 1] == items[i];
    }
  }

  /** The trains of the block as written (lines 1084-1098 and 1114-1130):
      the first pass takes the phases of the pulses on NV 2 from
      `dd_type_2` (`phases2`), the alternating copy takes them from
      `dd_type` (`phases`), like the pulses on NV 1. */
  function TrainsAsWritten(ddOrder: nat, suborder: nat, endPix: bool, phases: seq<real>, phases2: seq<real>,
                           alternating: bool): Result<seq<seq<PhasedItem>>>
  {
    var train := DdItems(ddOrder, suborder, ddOrder, 0, endPix);
    var first :- PhasePass(train, phases, phases2);
    if !alternating then Ok([first])
    else
      var second :- PhasePass(train, phases, phases);
      Ok([first, second])
  }

  /** The trains of the block as evidently intended: the alternating copy
      repeats the first train, pulses on NV 2 included, and differs only in
      the read-out rotation after it. */
  function Trains(ddOrder: nat, suborder: nat, endPix: bool, phases: seq<real>, phases2: seq<real>,
                  alternating: bool): Result<seq<seq<PhasedItem>>>
  {
    var train := DdItems(ddOrder, suborder, ddOrder, 0, endPix);
    var first :- PhasePass(train, phases, phases2);
    Ok(if alternating then [first, first] else [first])
  }

  /** In the alternating copy as written every pulse on NV 2 carries the
      phase of NV 1's pattern, whatever `dd_type_2` says. */
  lemma AlternatingAsWrittenUsesNv1Phases(ddOrder: nat, suborder: nat, endPix: bool, phases: seq<real>,
                                          phases2: seq<real>, i: nat)
    requires TrainsAsWritten(ddOrder, suborder, endPix, phases, phases2, true).Ok?
    requires i < |DdItems(ddOrder, suborder, ddOrder, 0, endPix)|
    ensures var train := DdItems(ddOrder, suborder, ddOrder, 0, endPix);
            var ts := TrainsAsWritten(ddOrder, suborder, endPix, phases, phases2, true).value;
            && |ts| == 2 && |ts[0]| == |ts[1]| == |train|
            && (train[i].PiOn2? ==> train[i].pulse < |phases| && ts[1][i] == PhasedOn2(phases[train[i].pulse]))
            && (train[i].EndPiOn2? ==> train[i].pulse < |phases| && ts[1][i] == PhasedEndOn2(phases[train[i].pulse]))
  {
    var train := DdItems(ddOrder, suborder, ddOrder, 0, endPix);
    PhasePassAt(train, phases, phases, i);
  }

  /** Two pulses per order, `dd_order` 2, `dd_type` phases [0] and
      `dd_type_2` phases [90]: the pulse on NV 2 after the first pulse on
      NV 1 is generated at phase 90 in the first pass but at phase 0 in the
      alternating copy as written. */
  lemma AlternatingAsWrittenDiffers()
    ensures var ts := TrainsAsWritten(2, 1, false, [0.0], [90.0], true);
            && ts.Ok? && |ts.value| == 2 && |ts.value[0]| == |ts.value[1]| == 7
            && ts.value[0][3] == PhasedOn2(90.0) && ts.value[1][3] == PhasedOn2(0.0)
  {
    var train := DdItems(2, 1, 2, 0, false);
    TwoPulseTrain();
    PhasePassAt(train, [0.0], [90.0], 3);
    PhasePassAt(train, [0.0], [0.0], 3);
  }

  /** The train of two orders of one pulse each, without an end rotation. */
  lemma TwoPulseTrain()
    ensures DdItems(2, 1, 2, 0, false) ==
            [Tau(TauFirst), PiOn1(0), Tau(TauAft), PiOn2(0), Tau(TauBef), PiOn1(0), Tau(TauLast)]
  {
    assert DdItems(2, 1, 2, 0, false) == Slot(2, 1, 0, 0, false) + Slot(2, 1, 1, 0, false);
  }

  /** In the corrected block every pass, the alternating copy included,
      generates each pulse on NV 1 at `dd_type`'s phase and each pulse on
      NV 2 at `dd_type_2`'s phase for its pulse number; the block is built
      exactly when the first pass can be, and the copy adds no failure. */
  lemma CorrectedPassesKeepNv2Phases(ddOrder: nat, suborder: nat, endPix: bool, phases: seq<real>,
                                     phases2: seq<real>, alternating: bool, k: nat, i: nat)
    requires Trains(ddOrder, suborder, endPix, phases, phases2, alternating).Ok?
    requires k < (if alternating then 2 else 1) && i < |DdItems(ddOrder, suborder, ddOrder, 0, endPix)|
    ensures var train := DdItems(ddOrder, suborder, ddOrder, 0, endPix);
            var ts := Trains(ddOrder, suborder, endPix, phases, phases2, alternating).value;
            && |ts| == (if alternating then 2 else 1) && |ts[k]| == |train|
            && (train[i].PiOn1? ==> train[i].pulse < |phases| && ts[k][i] == PhasedOn1(phases[train[i].pulse]))
            && (train[i].PiOn2? ==> train[i].pulse < |phases2| && ts[k][i] == PhasedOn2(phases2[train[i].pulse]))
            && (train[i].EndPiOn2? ==> train[i].pulse < |phases2| && ts[k][i] == PhasedEndOn2(phases2[train[i].pulse]))
  {
    var train := DdItems(ddOrder, suborder, ddOrder, 0, endPix);
    PhasePassAt(train, phases, phases2, i);
  }

  /** With no separate pattern for NV 2 (`dd_type_2` defaults to `dd_type`,
      lines 1006-1007) the block as written is the corrected one. */
  lemma AsWrittenExactWithoutSecondPattern(ddOrder: nat, suborder: nat, endPix: bool, phases: seq<real>,
                                           alternating: bool)
    ensures TrainsAsWritten(ddOrder, suborder, endPix, phases, phases, alternating)
            == Trains(ddOrder, suborder, endPix, phases, phases, alternating)
  {
  }

  // ---------------------------------------------------------------------
  // Negative pulse spacing

  /** The swept half before a pi pulse on NV 1: half the spacing minus tau,
      shrinking by `tauStep` per sweep step. */
  function TauHalfBef(spacing: real, tauStart: real, tauStep: real): Element
  {
    IdleElement(spacing / 2.0 - tauStart, -tauStep)
  }

  /** The swept half after a pi pulse on NV 1: half the spacing plus tau. */
  function TauHalfAft(spacing: real, tauStart: real, tauStep: real): Element
  {
    IdleElement(spacing / 2.0 + tauStart, tauStep)
  }

  /** A "before" half and an "after" half always add up to the spacing: the
      sweep only moves the pi pulse on NV 2 between the pulses on NV 1. */
  lemma BefAftKeepSpacing(spacing: real, tauStart: real, tauStep: real, step: int)
    ensures LengthAtStep([TauHalfBef(spacing, tauStart, tauStep), TauHalfAft(spacing, tauStart, tauStep)], step)
            == spacing
  {
    var b := TauHalfBef(spacing, tauStart, tauStep);
    var a := TauHalfAft(spacing, tauStart, tauStep);
    assert [b, a][1..] == [a];
    SingleLengthAtStep(a, step);
    assert LengthAtStep([b, a], step) == b.initLength + step as real * b.increment + LengthAtStep([a], step);
    assert step as real * -tauStep == -(step as real * tauStep);
  }

  /** The check as written: `get_element_length_max` of each swept half,
      that is its duration at the last of `numOfPoints` steps, must not be
      negative. True means `ValueError`. */
  predicate RejectsAsWritten(spacing: real, tauStart: real, tauStep: real, numOfPoints: int)
  {
    ElementLengthMax([TauHalfBef(spacing, tauStart, tauStep)], numOfPoints) < 0.0
    || ElementLengthMax([TauHalfAft(spacing, tauStart, tauStep)], numOfPoints) < 0.0
  }

  /** Some swept half is negative at some step of the sweep. */
  predicate NegativeSomewhere(spacing: real, tauStart: real, tauStep: real, numOfPoints: int)
  {
    exists step :: 0 <= step < numOfPoints &&
      (LengthAtStep([TauHalfBef(spacing, tauStart, tauStep)], step) < 0.0
       || LengthAtStep([TauHalfAft(spacing, tauStart, tauStep)], step) < 0.0)
  }

  /** The check as written looks at the last sweep step only. */
  lemma AsWrittenChecksLastStep(spacing: real, tauStart: real, tauStep: real, numOfPoints: int)
    ensures RejectsAsWritten(spacing, tauStart, tauStep, numOfPoints) <==>
              LengthAtStep([TauHalfBef(spacing, tauStart, tauStep)], numOfPoints - 1) < 0.0
              || LengthAtStep([TauHalfAft(spacing, tauStart, tauStep)], numOfPoints - 1) < 0.0
  {
    ElementLengthMaxIsLastStep([TauHalfBef(spacing, tauStart, tauStep)], numOfPoints);
    ElementLengthMaxIsLastStep([TauHalfAft(spacing, tauStart, tauStep)], numOfPoints);
  }

  /** A downward sweep (tau from 5 down by 1 over 3 points, spacing 8) passes
      the check as written although its first "before" half is negative. */
  lemma AsWrittenMissesDownwardSweep()
    ensures !RejectsAsWritten(8.0, 5.0, -1.0, 3)
    ensures LengthAtStep([TauHalfBef(8.0, 5.0, -1.0)], 0) == -1.0
    ensures NegativeSomewhere(8.0, 5.0, -1.0, 3)
  {
    AsWrittenChecksLastStep(8.0, 5.0, -1.0, 3);
    assert LengthAtStep([TauHalfBef(8.0, 5.0, -1.0)], 0) == -1.0;
  }

  /** The corrected check: each swept half changes linearly, so it is
      checked at the first and at the last step. */
  predicate RejectsNegativeSpacing(spacing: real, tauStart: real, tauStep: real, numOfPoints: int)
  {
    var bef := [TauHalfBef(spacing, tauStart, tauStep)];
    var aft := [TauHalfAft(spacing, tauStart, tauStep)];
    numOfPoints >= 1 &&
      (LengthAtStep(bef, 0) < 0.0 || LengthAtStep(aft, 0) < 0.0
       || LengthAtStep(bef, numOfPoints - 1) < 0.0 || LengthAtStep(aft, numOfPoints - 1) < 0.0)
  }

  /** A quantity linear in the step that is non-negative at both ends of the
      sweep is non-negative in between. */
  lemma LinearBetweenEnds(init: real, inc: real, step: int, last: int)
    requires 0 <= step <= last
    requires init >= 0.0 && init + last as real * inc >= 0.0
    ensures init + step as real * inc >= 0.0
  {
    if inc < 0.0 {
      assert (last - step) as real * inc <= 0.0;
      assert init + step as real * inc == init + last as real * inc - (last - step) as real * inc;
    } else {
      assert step as real * inc >= 0.0;
    }
  }

  lemma SingleLengthAtStep(e: Element, step: int)
    ensures LengthAtStep([e], step) == e.initLength + step as real * e.increment
  {
    assert [e][1..] == [];
  }

  /** The corrected check rejects exactly the sweeps in which some half is
      negative at some step. */
  lemma CorrectedCheckExact(spacing: real, tauStart: real, tauStep: real, numOfPoints: int)
    ensures RejectsNegativeSpacing(spacing, tauStart, tauStep, numOfPoints)
            <==> NegativeSomewhere(spacing, tauStart, tauStep, numOfPoints)
  {
    var b := TauHalfBef(spacing, tauStart, tauStep);
    var a := TauHalfAft(spacing, tauStart, tauStep);
    if NegativeSomewhere(spacing, tauStart, tauStep, numOfPoints) && numOfPoints >= 1 {
      var step :| 0 <= step < numOfPoints && (LengthAtStep([b], step) < 0.0 || LengthAtStep([a], step) < 0.0);
      SingleLengthAtStep(b, step);
      SingleLengthAtStep(a, step);
      SingleLengthAtStep(b, 0);
      SingleLengthAtStep(a, 0);
      SingleLengthAtStep(b, numOfPoints - 1);
      SingleLengthAtStep(a, numOfPoints - 1);
      if !RejectsNegativeSpacing(spacing, tauStart, tauStep, numOfPoints) {
        LinearBetweenEnds(b.initLength, b.increment, step, numOfPoints - 1);
        LinearBetweenEnds(a.initLength, a.increment, step, numOfPoints - 1);
      }
    }
    if RejectsNegativeSpacing(spacing, tauStart, tauStep, numOfPoints) {
      if LengthAtStep([b], 0) < 0.0 || LengthAtStep([a], 0) < 0.0 {
        assert 0 <= 0 < numOfPoints;
      } else {
        assert 0 <= numOfPoints - 1 < numOfPoints;
      }
    }
  }

  /** For a sweep that starts at a non-negative tau and goes up, the check as
      written already is the corrected one. */
  lemma AsWrittenExactForUpwardSweep(spacing: real, tauStart: real, tauStep: real, numOfPoints: int)
    requires tauStart >= 0.0 && tauStep >= 0.0 && numOfPoints >= 1
    ensures RejectsAsWritten(spacing, tauStart, tauStep, numOfPoints)
            <==> RejectsNegativeSpacing(spacing, tauStart, tauStep, numOfPoints)
  {
    var b := TauHalfBef(spacing, tauStart, tauStep);
    var a := TauHalfAft(spacing, tauStart, tauStep);
    AsWrittenChecksLastStep(spacing, tauStart, tauStep, numOfPoints);
    SingleLengthAtStep(b, 0);
    SingleLengthAtStep(a, 0);
    SingleLengthAtStep(b, numOfPoints - 1);
    SingleLengthAtStep(a, numOfPoints - 1);
    assert (numOfPoints - 1) as real * tauStep >= 0.0;
  }
}
