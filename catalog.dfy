/** The optimal-control pulse catalog: `OptimalControlPulse`, the lookup
    `get_oc_pulse` and the pairing of in-phase ("amplitude") and quadrature
    ("phase") files done by `load_optimal_pulses_from_path`, as functions
    over the catalog and the directory listing. */
module Catalog {
  import opened Wrappers
  import opened Text

  /** The default quadrature markers of the two files of a pulse. */
  const QuadI: string := "amplitude"
  const QuadQ: string := "phase"

  /** `OptimalControlPulse`: the target (NV index and length in units of a
      pi rotation) and the two files holding the pulse. */
  datatype OcPulse = OcPulse(onNv: int, pix: real, fileI: string, fileQ: string)
  {
    /** `equal_target_u`: same NV and same rotation. */
    predicate EqualTargetU(other: OcPulse)
    {
      onNv == other.onNv && pix == other.pix
    }

    /** The `file` property: the shared beginning of both file names. */
    function File(): string
    {
      CommonPrefix(fileI, fileQ)
    }
  }

  /** `equal_target_u` is an equivalence that looks only at the target, never
      at the files. */
  lemma EqualTargetUIsTargetEquivalence(a: OcPulse, b: OcPulse, c: OcPulse, fi: string, fq: string)
    ensures a.EqualTargetU(a)
    ensures a.EqualTargetU(b) ==> b.EqualTargetU(a)
    ensures a.EqualTargetU(b) && b.EqualTargetU(c) ==> a.EqualTargetU(c)
    ensures a.EqualTargetU(OcPulse(a.onNv, a.pix, fi, fq))
    ensures a.EqualTargetU(b) <==> (a.onNv, a.pix) == (b.onNv, b.pix)
  {
  }

  /** `file` is the longest name both files start with. */
  lemma FileIsLongestCommonPrefix(p: OcPulse, s: string)
    ensures p.File() <= p.fileI && p.File() <= p.fileQ
    ensures s <= p.fileI && s <= p.fileQ ==> s <= p.File()
  {
    if s <= p.fileI && s <= p.fileQ {
      CommonPrefixIsLongest(p.fileI, p.fileQ, s);
    }
  }

  /** `get_oc_pulse(on_nv, pix)`: the catalog entries with that target, in
      catalog order. */
  function Matches(catalog: seq<OcPulse>, onNv: int, pix: real): (r: seq<OcPulse>)
    ensures |r| <= |catalog|
    ensures forall p :: p in r <==> p in catalog && p.onNv == onNv && p.pix == pix
  {
    if catalog == [] then []
    else
      var rest := Matches(catalog[..|catalog| - 1], onNv, pix);
      var last := catalog[|catalog| - 1];
      assert catalog == catalog[..|catalog| - 1] + [last];
      if last.EqualTargetU(OcPulse(onNv, pix, [], [])) then rest + [last] else rest
  }

  /** No two entries share a target. */
  predicate UniqueTargets(catalog: seq<OcPulse>)
  {
    forall i, j :: 0 <= i < j < |catalog| ==> !catalog[i].EqualTargetU(catalog[j])
  }

  /** In a catalog without repeated targets a lookup finds at most one pulse. */
  lemma {:induction false} UniqueTargetsLookup(catalog: seq<OcPulse>, onNv: int, pix: real)
    requires UniqueTargets(catalog)
    ensures |Matches(catalog, onNv, pix)| <= 1
  {
    if catalog != [] {
      var init := catalog[..|catalog| - 1];
      var last := catalog[|catalog| - 1];
      assert UniqueTargets(init);
      UniqueTargetsLookup(init, onNv, pix);
      if last.onNv == onNv && last.pix == pix {
        forall q | q in init
          ensures !(q.onNv == onNv && q.pix == pix)
        {
          var i :| 0 <= i < |init| && init[i] == q;
          assert !catalog[i].EqualTargetU(catalog[|catalog| - 1]);
        }
        NoMatchesEmpty(init, onNv, pix);
      }
    }
  }

  lemma {:induction false} NoMatchesEmpty(catalog: seq<OcPulse>, onNv: int, pix: real)
    requires forall p :: p in catalog ==> !(p.onNv == onNv && p.pix == pix)
    ensures Matches(catalog, onNv, pix) == []
  {
    if catalog != [] {
      var init := catalog[..|catalog| - 1];
      assert forall p :: p in init ==> p in catalog;
      NoMatchesEmpty(init, onNv, pix);
      assert catalog[|catalog| - 1] in catalog;
    }
  }

  /** Position `i` of the catalog holds a pulse for the target. */
  predicate IsEntry(catalog: seq<OcPulse>, i: int, onNv: int, pix: real)
    requires 0 <= i < |catalog|
  {
    catalog[i].onNv == onNv && catalog[i].pix == pix
  }

  /** Exactly one position of the catalog holds a pulse for the target. */
  predicate ExactlyOneEntry(catalog: seq<OcPulse>, onNv: int, pix: real)
  {
    exists i :: 0 <= i < |catalog| && IsEntry(catalog, i, onNv, pix)
                && forall j :: 0 <= j < |catalog| && IsEntry(catalog, j, onNv, pix) ==> j == i
  }

  /** The lookup is empty exactly when no position holds the target. */
  lemma NoMatchIffNoEntry(catalog: seq<OcPulse>, onNv: int, pix: real)
    ensures Matches(catalog, onNv, pix) == [] <==> forall j :: 0 <= j < |catalog| ==> !IsEntry(catalog, j, onNv, pix)
  {
    if forall j :: 0 <= j < |catalog| ==> !IsEntry(catalog, j, onNv, pix) {
      forall p | p in catalog
        ensures !(p.onNv == onNv && p.pix == pix)
      {
        var j :| 0 <= j < |catalog| && catalog[j] == p;
        assert !IsEntry(catalog, j, onNv, pix);
      }
      NoMatchesEmpty(catalog, onNv, pix);
    } else {
      var j :| 0 <= j < |catalog| && IsEntry(catalog, j, onNv, pix);
      assert catalog[j] in Matches(catalog, onNv, pix);
    }
  }

  /** `len(get_oc_pulse(on_nv, pix)) == 1` holds exactly when one catalog
      position holds the target. */
  lemma {:induction false} SingleMatch(catalog: seq<OcPulse>, onNv: int, pix: real)
    ensures |Matches(catalog, onNv, pix)| == 1 <==> ExactlyOneEntry(catalog, onNv, pix)
  {
    if catalog != [] {
      var n := |catalog| - 1;
      var init := catalog[..n];
      SingleMatch(init, onNv, pix);
      assert forall j :: 0 <= j < n ==> (IsEntry(init, j, onNv, pix) <==> IsEntry(catalog, j, onNv, pix));
      if IsEntry(catalog, n, onNv, pix) {
        SingleMatchLastEntry(catalog, onNv, pix);
      } else {
        SingleMatchLastOther(catalog, onNv, pix);
      }
    }
  }

  lemma SingleMatchLastEntry(catalog: seq<OcPulse>, onNv: int, pix: real)
    requires catalog != [] && IsEntry(catalog, |catalog| - 1, onNv, pix)
    ensures |Matches(catalog, onNv, pix)| == 1 <==> ExactlyOneEntry(catalog, onNv, pix)
  {
    var n := |catalog| - 1;
    var init := catalog[..n];
    NoMatchIffNoEntry(init, onNv, pix);
    assert forall j :: 0 <= j < n ==> (IsEntry(init, j, onNv, pix) <==> IsEntry(catalog, j, onNv, pix));
    assert Matches(catalog, onNv, pix) == Matches(init, onNv, pix) + [catalog[n]];
    if Matches(init, onNv, pix) == [] {
      assert forall j :: 0 <= j < |catalog| && IsEntry(catalog, j, onNv, pix) ==> j == n;
    } else {
      var j :| 0 <= j < n && IsEntry(init, j, onNv, pix);
      assert IsEntry(catalog, j, onNv, pix) && IsEntry(catalog, n, onNv, pix);
    }
  }

  lemma SingleMatchLastOther(catalog: seq<OcPulse>, onNv: int, pix: real)
    requires catalog != [] && !IsEntry(catalog, |catalog| - 1, onNv, pix)
    requires var init := catalog[..|catalog| - 1];
             |Matches(init, onNv, pix)| == 1 <==> ExactlyOneEntry(init, onNv, pix)
    ensures |Matches(catalog, onNv, pix)| == 1 <==> ExactlyOneEntry(catalog, onNv, pix)
  {
    var init := catalog[..|catalog| - 1];
    assert Matches(catalog, onNv, pix) == Matches(init, onNv, pix);
    if ExactlyOneEntry(catalog, onNv, pix) {
      OneEntryWithoutLast(catalog, onNv, pix);
    }
    if ExactlyOneEntry(init, onNv, pix) {
      OneEntryWithLast(catalog, onNv, pix);
    }
  }

  /** A last position that is not an entry can be dropped from a catalog
      with exactly one entry ... */
  lemma OneEntryWithoutLast(catalog: seq<OcPulse>, onNv: int, pix: real)
    requires catalog != [] && !IsEntry(catalog, |catalog| - 1, onNv, pix)
    requires ExactlyOneEntry(catalog, onNv, pix)
    ensures ExactlyOneEntry(catalog[..|catalog| - 1], onNv, pix)
  {
    var n := |catalog| - 1;
    var init := catalog[..n];
    var i :| 0 <= i < |catalog| && IsEntry(catalog, i, onNv, pix)
             && forall j :: 0 <= j < |catalog| && IsEntry(catalog, j, onNv, pix) ==> j == i;
    assert IsEntry(init, i, onNv, pix);
    forall j | 0 <= j < n && IsEntry(init, j, onNv, pix)
      ensures j == i
    {
      assert IsEntry(catalog, j, onNv, pix);
    }
  }

  /** ... and added back. */
  lemma OneEntryWithLast(catalog: seq<OcPulse>, onNv: int, pix: real)
    requires catalog != [] && !IsEntry(catalog, |catalog| - 1, onNv, pix)
    requires ExactlyOneEntry(catalog[..|catalog| - 1], onNv, pix)
    ensures ExactlyOneEntry(catalog, onNv, pix)
  {
    var n := |catalog| - 1;
    var init := catalog[..n];
    var i :| 0 <= i < n && IsEntry(init, i, onNv, pix)
             && forall j :: 0 <= j < n && IsEntry(init, j, onNv, pix) ==> j == i;
    assert IsEntry(catalog, i, onNv, pix);
    forall j | 0 <= j < |catalog| && IsEntry(catalog, j, onNv, pix)
      ensures j == i
    {
      assert IsEntry(init, j, onNv, pix);
    }
  }


  /** Looking a target up in two catalogs one after the other is looking it
      up in both. */
  lemma {:induction false} MatchesAppend(a: seq<OcPulse>, b: seq<OcPulse>, onNv: int, pix: real)
    ensures Matches(a + b, onNv, pix) == Matches(a, onNv, pix) + Matches(b, onNv, pix)
  {
    if b != [] {
      var init := b[..|b| - 1];
      MatchesAppend(a, init, onNv, pix);
      assert (a + b)[..|a + b| - 1] == a + init;
    } else {
      assert a + b == a;
    }
  }

  // ---------------------------------------------------------------------
  // Pairing the two files of a pulse

  /** `Tk_string.filter_str(items, f, exclStrList=[excl])`: the items that
      contain `f` and do not contain `excl`, in their order. */
  function FilterStr(items: seq<string>, f: string, excl: string): (r: seq<string>)
    ensures |r| <= |items|
  {
    if items == [] then []
    else
      var rest := FilterStr(items[1..], f, excl);
      if Contains(items[0], f) && !Contains(items[0], excl) then [items[0]] + rest else rest
  }

  /** An item survives `FilterStr` exactly when it is listed, contains the
      filter and does not contain the excluded string. */
  lemma {:induction false} FilterStrMembers(items: seq<string>, f: string, excl: string, x: string)
    ensures x in FilterStr(items, f, excl) <==> x in items && Contains(x, f) && !Contains(x, excl)
  {
    if items != [] {
      FilterStrMembers(items[1..], f, excl, x);
      assert items == [items[0]] + items[1..];
    }
  }

  /** The filters applied one after the other. */
  function ApplyFilters(items: seq<string>, filters: seq<string>, excl: string): seq<string>
    decreases |filters|
  {
    if filters == [] then items
    else ApplyFilters(FilterStr(items, filters[0], excl), filters[1..], excl)
  }

  /** With at least one filter, an item survives exactly when it is listed,
      does not contain the excluded string and contains every filter. */
  lemma {:induction false} ApplyFiltersMembers(items: seq<string>, filters: seq<string>, excl: string, x: string)
    requires filters != []
    decreases |filters|
    ensures x in ApplyFilters(items, filters, excl) <==>
              x in items && !Contains(x, excl) && forall j :: 0 <= j < |filters| ==> Contains(x, filters[j])
  {
    var first := FilterStr(items, filters[0], excl);
    FilterStrMembers(items, filters[0], excl, x);
    if |filters| > 1 {
      ApplyFiltersMembers(first, filters[1..], excl, x);
      assert forall j :: 1 <= j < |filters| ==> filters[j] == filters[1..][j - 1];
    }
  }

  /** The filters of `find_q_files`: the directory, the base name with the
      in-phase marker and the extension removed, and, when the base name is
      just the marker plus an extension, the quadrature marker with that
      extension. `Tk_file.get_filename_no_extension` is taken to be the
      `splitext` root of the base name. */
  function QFilters(path: string, iFile: string, strI: string, strQ: string): seq<string>
  {
    var base := Basename(iFile);
    var stem := SplitExt(RemoveAll(base, strI)).0;
    var ext := SplitExt(base).1;
    [path, stem] + (if SplitExt(base).0 == strI then [strQ + ext] else [])
  }

  /** `find_q_files`: the partner candidates of `iFile` in the listing. */
  function QFileCandidates(path: string, iFile: string, allFiles: seq<string>, strI: string, strQ: string): seq<string>
  {
    ApplyFilters(allFiles, QFilters(path, iFile, strI, strQ), iFile)
  }

  /** A listed file is a partner candidate exactly when it is not the in-phase
      file, lies under the directory and contains the stripped stem (and the
      quadrature marker plus extension when the stem is just the marker). */
  lemma QFileCandidatesExactly(path: string, iFile: string, allFiles: seq<string>, strI: string, strQ: string, x: string)
    ensures var base := Basename(iFile);
            var stem := SplitExt(RemoveAll(base, strI)).0;
            var ext := SplitExt(base).1;
            x in QFileCandidates(path, iFile, allFiles, strI, strQ) <==>
              && x in allFiles && !Contains(x, iFile) && Contains(x, path) && Contains(x, stem)
              && (SplitExt(base).0 == strI ==> Contains(x, strQ + ext))
  {
    var fs := QFilters(path, iFile, strI, strQ);
    ApplyFiltersMembers(allFiles, fs, iFile, x);
    assert fs[0] == path && fs[1] == SplitExt(RemoveAll(Basename(iFile), strI)).0;
    if SplitExt(Basename(iFile)).0 == strI {
      assert fs[2] == strQ + SplitExt(Basename(iFile)).1;
    }
  }

  /** A file is never its own partner. */
  lemma NotOwnPartner(path: string, iFile: string, allFiles: seq<string>, strI: string, strQ: string)
    ensures iFile !in QFileCandidates(path, iFile, allFiles, strI, strQ)
  {
    ContainsSelf(iFile);
    ApplyFiltersMembers(allFiles, QFilters(path, iFile, strI, strQ), iFile, iFile);
  }

  // ---------------------------------------------------------------------
  // Loading

  /** What `oc_params_from_str` finds in a file name: the NV and the rotation,
      each possibly absent. */
  datatype OcParams = OcParams(onNv: Option<int>, pix: Option<real>)

  /** The pulse one listed file yields: None when its base name lacks the
      in-phase marker or it does not have exactly one partner; a missing NV
      or rotation defaults to 1. */
  function PulseOf(file: string, allFiles: seq<string>, strI: string, strQ: string,
                   parse: string -> OcParams): Option<OcPulse>
  {
    if !Contains(Basename(file), strI) then None
    else
      var qs := QFileCandidates(ParentDir(file), file, allFiles, strI, strQ);
      if |qs| != 1 then None
      else
        var ps := parse(file);
        Some(OcPulse(ps.onNv.GetOr(1), ps.pix.GetOr(1.0), file, qs[0]))
  }

  /** The pulse of every listed file, in listing order. */
  function PulsesOf(files: seq<string>, allFiles: seq<string>, strI: string, strQ: string,
                    parse: string -> OcParams): (r: seq<Option<OcPulse>>)
    ensures |r| == |files|
    ensures forall i :: 0 <= i < |files| ==> r[i] == PulseOf(files[i], allFiles, strI, strQ, parse)
  {
    seq(|files|, i requires 0 <= i < |files| => PulseOf(files[i], allFiles, strI, strQ, parse))
  }

  /** The registration loop as written: a pulse is kept unless the catalog
      held before the load (`prior`) already has its target. */
  function KeepAbsentFrom(prior: seq<OcPulse>, found: seq<Option<OcPulse>>): seq<OcPulse>
  {
    if found == [] then []
    else
      var loaded := KeepAbsentFrom(prior, found[..|found| - 1]);
      match found[|found| - 1]
      case Some(p) => if Matches(prior, p.onNv, p.pix) == [] then loaded + [p] else loaded
      case None => loaded
  }

  /** The registration loop with the duplicate check it evidently intends: a
      pulse is kept unless the prior catalog or the pulses kept so far
      already have its target. */
  function KeepFirst(prior: seq<OcPulse>, found: seq<Option<OcPulse>>): seq<OcPulse>
  {
    if found == [] then []
    else
      var loaded := KeepFirst(prior, found[..|found| - 1]);
      match found[|found| - 1]
      case Some(p) => if Matches(prior + loaded, p.onNv, p.pix) == [] then loaded + [p] else loaded
      case None => loaded
  }

  /** `load_optimal_pulses_from_path` as written. */
  function LoadAsWritten(prior: seq<OcPulse>, files: seq<string>, allFiles: seq<string>,
                         strI: string, strQ: string, parse: string -> OcParams): seq<OcPulse>
  {
    KeepAbsentFrom(prior, PulsesOf(files, allFiles, strI, strQ, parse))
  }

  /** `load_optimal_pulses_from_path` with the corrected duplicate check. */
  function LoadUnique(prior: seq<OcPulse>, files: seq<string>, allFiles: seq<string>,
                      strI: string, strQ: string, parse: string -> OcParams): seq<OcPulse>
  {
    KeepFirst(prior, PulsesOf(files, allFiles, strI, strQ, parse))
  }

  /** One more file in the as-written loop: its pulse is appended unless
      missing or its target is in the prior catalog. */
  lemma KeepAbsentFromStep(prior: seq<OcPulse>, found: seq<Option<OcPulse>>, i: nat)
    requires i < |found|
    ensures KeepAbsentFrom(prior, found[..i + 1]) ==
            KeepAbsentFrom(prior, found[..i])
            + (if found[i].Some? && Matches(prior, found[i].value.onNv, found[i].value.pix) == [] then [found[i].value] else [])
  {
    assert found[..i + 1][..i] == found[..i];
  }

  /** One more file in the corrected loop: its pulse is appended unless
      missing or its target is in the prior catalog or among the pulses kept
      so far. */
  lemma KeepFirstStep(prior: seq<OcPulse>, found: seq<Option<OcPulse>>, i: nat)
    requires i < |found|
    ensures var loaded := KeepFirst(prior, found[..i]);
            KeepFirst(prior, found[..i + 1]) ==
            loaded + (if found[i].Some? && Matches(prior + loaded, found[i].value.onNv, found[i].value.pix) == []
                      then [found[i].value] else [])
  {
    assert found[..i + 1][..i] == found[..i];
  }

  lemma {:induction false} KeepAbsentFromSound(prior: seq<OcPulse>, found: seq<Option<OcPulse>>)
    ensures forall p :: p in KeepAbsentFrom(prior, found) ==> Some(p) in found && Matches(prior, p.onNv, p.pix) == []
  {
    if found != [] {
      var init := found[..|found| - 1];
      KeepAbsentFromSound(prior, init);
      assert forall o :: o in init ==> o in found;
    }
  }

  lemma {:induction false} KeepFirstSound(prior: seq<OcPulse>, found: seq<Option<OcPulse>>)
    requires UniqueTargets(prior)
    ensures UniqueTargets(prior + KeepFirst(prior, found))
    ensures forall p :: p in KeepFirst(prior, found) ==> Some(p) in found
  {
    if found != [] {
      var init := found[..|found| - 1];
      KeepFirstSound(prior, init);
      assert forall o :: o in init ==> o in found;
      var loaded := KeepFirst(prior, init);
      if found[|found| - 1].Some? {
        var p := found[|found| - 1].value;
        var cat := prior + loaded;
        if Matches(cat, p.onNv, p.pix) == [] {
          assert prior + (loaded + [p]) == cat + [p];
          forall i | 0 <= i < |cat|
            ensures !cat[i].EqualTargetU(p)
          {
            assert cat[i] in cat;
          }
        }
      }
    }
  }

  lemma {:induction false} KeepFirstComplete(prior: seq<OcPulse>, found: seq<Option<OcPulse>>, i: nat)
    requires i < |found| && found[i].Some?
    ensures Matches(prior + KeepFirst(prior, found), found[i].value.onNv, found[i].value.pix) != []
  {
    var init := found[..|found| - 1];
    var p := found[i].value;
    var loaded := KeepFirst(prior, init);
    var r := KeepFirst(prior, found);
    assert r == loaded || r == loaded + [found[|found| - 1].value];
    assert forall q :: q in prior + loaded ==> q in prior + r;
    if i < |found| - 1 {
      KeepFirstComplete(prior, init, i);
      var q := Matches(prior + loaded, p.onNv, p.pix)[0];
      assert q in prior + r;
    } else if Matches(prior + loaded, p.onNv, p.pix) != [] {
      var q := Matches(prior + loaded, p.onNv, p.pix)[0];
      assert q in prior + r;
    } else {
      assert p in prior + r;
    }
  }

  /** The pulse a loaded entry came from: a listed in-phase file with exactly
      one partner, and its target read from the name with default 1. */
  predicate FromListing(p: OcPulse, files: seq<string>, allFiles: seq<string>,
                        strI: string, strQ: string, parse: string -> OcParams)
  {
    && p.fileI in files
    && Contains(Basename(p.fileI), strI)
    && QFileCandidates(ParentDir(p.fileI), p.fileI, allFiles, strI, strQ) == [p.fileQ]
    && p.onNv == parse(p.fileI).onNv.GetOr(1)
    && p.pix == parse(p.fileI).pix.GetOr(1.0)
  }

  lemma FoundFromListing(files: seq<string>, allFiles: seq<string>, strI: string, strQ: string,
                         parse: string -> OcParams, p: OcPulse)
    requires Some(p) in PulsesOf(files, allFiles, strI, strQ, parse)
    ensures FromListing(p, files, allFiles, strI, strQ, parse)
  {
    var found := PulsesOf(files, allFiles, strI, strQ, parse);
    var i :| 0 <= i < |found| && found[i] == Some(p);
    PulseOfFile(files[i], allFiles, strI, strQ, parse, p);
    assert files[i] in files;
  }

  /** A pulse made from one file names that file as its in-phase file. */
  lemma PulseOfFile(file: string, allFiles: seq<string>, strI: string, strQ: string,
                    parse: string -> OcParams, p: OcPulse)
    requires PulseOf(file, allFiles, strI, strQ, parse) == Some(p)
    ensures p.fileI == file && Contains(Basename(file), strI)
    ensures QFileCandidates(ParentDir(file), file, allFiles, strI, strQ) == [p.fileQ]
    ensures p.onNv == parse(file).onNv.GetOr(1) && p.pix == parse(file).pix.GetOr(1.0)
  {
    var qs := QFileCandidates(ParentDir(file), file, allFiles, strI, strQ);
    assert qs == [qs[0]];
  }

  /** Every pulse the loader (as written) registers comes from a listed
      in-phase file with a unique partner, and its target is not in the
      prior catalog. */
  lemma LoadAsWrittenSound(prior: seq<OcPulse>, files: seq<string>, allFiles: seq<string>,
                           strI: string, strQ: string, parse: string -> OcParams, p: OcPulse)
    requires p in LoadAsWritten(prior, files, allFiles, strI, strQ, parse)
    ensures FromListing(p, files, allFiles, strI, strQ, parse) && Matches(prior, p.onNv, p.pix) == []
  {
    KeepAbsentFromSound(prior, PulsesOf(files, allFiles, strI, strQ, parse));
    FoundFromListing(files, allFiles, strI, strQ, parse, p);
  }

  /** The corrected loader registers only pulses from listed in-phase files
      with a unique partner, and never repeats a target, neither among the
      loaded pulses nor against the prior catalog. */
  lemma LoadUniqueSound(prior: seq<OcPulse>, files: seq<string>, allFiles: seq<string>,
                        strI: string, strQ: string, parse: string -> OcParams)
    requires UniqueTargets(prior)
    ensures var r := LoadUnique(prior, files, allFiles, strI, strQ, parse);
            && UniqueTargets(prior + r)
            && forall p :: p in r ==> FromListing(p, files, allFiles, strI, strQ, parse)
  {
    var found := PulsesOf(files, allFiles, strI, strQ, parse);
    KeepFirstSound(prior, found);
    forall p | p in KeepFirst(prior, found)
      ensures FromListing(p, files, allFiles, strI, strQ, parse)
    {
      FoundFromListing(files, allFiles, strI, strQ, parse, p);
    }
  }

  /** The corrected loader loses no target: every listed file that yields a
      pulse has its target in the prior catalog or among the loaded pulses. */
  lemma LoadUniqueComplete(prior: seq<OcPulse>, files: seq<string>, allFiles: seq<string>,
                           strI: string, strQ: string, parse: string -> OcParams, i: nat)
    requires i < |files| && PulseOf(files[i], allFiles, strI, strQ, parse).Some?
    ensures var p := PulseOf(files[i], allFiles, strI, strQ, parse).value;
            Matches(prior + LoadUnique(prior, files, allFiles, strI, strQ, parse), p.onNv, p.pix) != []
  {
    KeepFirstComplete(prior, PulsesOf(files, allFiles, strI, strQ, parse), i);
  }

  /** The file names of the example listing: a directory holds two pulse
      file pairs, with markers "i" and "q". */
  predicate IsExampleListing(files: seq<string>)
  {
    |files| == 4 && files[0] == "d/xi" && files[1] == "d/xq" && files[2] == "d/yi" && files[3] == "d/yq"
  }

  /** Names in the example carry no parameters. */
  function NoParams(name: string): OcParams
  {
    OcParams(None, None)
  }

  lemma ExampleNames(files: seq<string>, k: nat, c: char)
    requires IsExampleListing(files) && k < 3 && k % 2 == 0 && c == (if k == 0 then 'x' else 'y')
    ensures ParentDir(files[k]) == "d" && Basename(files[k]) == [c, 'i'] && Basename(files[k + 1]) == [c, 'q']
    ensures QFilters("d", files[k], "i", "q") == ["d", [c]]
  {
    var i, q := ['d', '/', c, 'i'], ['d', '/', c, 'q'];
    assert files[k] == i && files[k + 1] == q;
    var dir, dirc := ['d', '/'], ['d', '/', c];
    assert LastSep(dir) == 1;
    assert dirc[..2] == dir && LastSep(dirc) == 1;
    assert i[..3] == dirc && q[..3] == dirc;
    assert LastSep(i) == 1 && LastSep(q) == 1;
    assert i[..1] == "d" && i[2..] == [c, 'i'] && q[2..] == [c, 'q'];
    var base := [c, 'i'];
    assert base[1..] == "i" && "i"[1..] == [];
    assert RemoveAll(base, "i") == [c];
    assert LastSep([c]) == -1 && LastDot([c]) == -1;
    assert base[..1] == [c];
    assert LastSep(base) == -1 && LastDot(base) == -1;
  }

  /** The in-phase marker occurs in the in-phase names only. */
  lemma ExampleMarkers(files: seq<string>)
    requires IsExampleListing(files)
    ensures Contains(Basename(files[0]), "i") && !Contains(Basename(files[1]), "i")
    ensures Contains(Basename(files[2]), "i") && !Contains(Basename(files[3]), "i")
  {
    ExampleNames(files, 0, 'x');
    ExampleNames(files, 2, 'y');
    ContainsChar(Basename(files[0]), 'i');
    ContainsChar(Basename(files[1]), 'i');
    ContainsChar(Basename(files[2]), 'i');
    ContainsChar(Basename(files[3]), 'i');
  }

  /** Every name holds the directory, and only the in-phase name `m` holds
      itself. */
  lemma ExampleDirs(files: seq<string>, m: nat)
    requires IsExampleListing(files) && (m == 0 || m == 2)
    ensures forall k :: 0 <= k < 4 ==> Contains(files[k], "d")
    ensures forall k :: 0 <= k < 4 ==> (Contains(files[k], files[m]) <==> k == m)
  {
    forall k | 0 <= k < 4
      ensures Contains(files[k], "d")
    {
      ContainsChar(files[k], 'd');
    }
    forall k | 0 <= k < 4
      ensures Contains(files[k], files[m]) <==> k == m
    {
      ContainsByLength(files[k], files[m]);
      assert files[k] == files[m] <==> k == m by {
        assert files[k][2] == files[m][2] <==> k / 2 == m / 2;
        assert files[k][3] == files[m][3] <==> k % 2 == m % 2;
      }
    }
  }

  /** The stem `x` is only in the `x` names, and `y` only in the `y` names. */
  lemma ExampleStems(files: seq<string>)
    requires IsExampleListing(files)
    ensures forall k :: 0 <= k < 4 ==> (Contains(files[k], "x") <==> k < 2)
    ensures forall k :: 0 <= k < 4 ==> (Contains(files[k], "y") <==> k >= 2)
  {
    forall k | 0 <= k < 4
      ensures (Contains(files[k], "x") <==> k < 2) && (Contains(files[k], "y") <==> k >= 2)
    {
      ContainsChar(files[k], 'x');
      ContainsChar(files[k], 'y');
    }
  }

  /** One step of `FilterStr` on a non-empty list. */
  lemma FilterStrCons(items: seq<string>, f: string, excl: string)
    requires items != []
    ensures FilterStr(items, f, excl) ==
              (if Contains(items[0], f) && !Contains(items[0], excl) then [items[0]] else []) + FilterStr(items[1..], f, excl)
  {
  }

  /** Filtering a list whose items all pass except the one at `m` removes
      just that item. */
  lemma {:induction false} FilterDropsOne(items: seq<string>, f: string, excl: string, m: nat)
    requires m < |items| && !(Contains(items[m], f) && !Contains(items[m], excl))
    requires forall k :: 0 <= k < |items| && k != m ==> Contains(items[k], f) && !Contains(items[k], excl)
    ensures FilterStr(items, f, excl) == items[..m] + items[m + 1..]
  {
    FilterStrCons(items, f, excl);
    var rest := items[1..];
    assert forall k :: 0 <= k < |rest| ==> rest[k] == items[k + 1];
    if m == 0 {
      FilterKeepsAll(rest, f, excl);
    } else {
      FilterDropsOne(rest, f, excl, m - 1);
      assert [items[0]] + items[1..][..m - 1] == items[..m];
      assert items[1..][m..] == items[m + 1..];
    }
  }

  /** Filtering a list whose items all pass changes nothing. */
  lemma {:induction false} FilterKeepsAll(items: seq<string>, f: string, excl: string)
    requires forall k :: 0 <= k < |items| ==> Contains(items[k], f) && !Contains(items[k], excl)
    ensures FilterStr(items, f, excl) == items
  {
    if items != [] {
      FilterStrCons(items, f, excl);
      var rest := items[1..];
      assert forall k :: 0 <= k < |rest| ==> rest[k] == items[k + 1];
      FilterKeepsAll(rest, f, excl);
    }
  }

  /** Filtering the listing for the directory, excluding one in-phase file. */
  lemma ExampleDirFilter(files: seq<string>, m: nat)
    requires IsExampleListing(files) && (m == 0 || m == 2)
    ensures FilterStr(files, "d", files[m]) == files[..m] + files[m + 1..]
  {
    ExampleDirs(files, m);
    FilterDropsOne(files, "d", files[m], m);
  }

  /** Filtering what is left for the stem keeps the partner only. */
  lemma ExampleStemFilter(files: seq<string>)
    requires IsExampleListing(files)
    ensures FilterStr(files[1..], "x", files[0]) == [files[1]]
    ensures FilterStr([files[0], files[1], files[3]], "y", files[2]) == [files[3]]
  {
    ExampleDirs(files, 0);
    ExampleDirs(files, 2);
    ExampleStems(files);
    var t1, t2, t3 := files[1..], files[2..], files[3..];
    assert t1[1..] == t2 && t2[1..] == t3 && t3[1..] == [];
    assert t1[0] == files[1] && t2[0] == files[2] && t3[0] == files[3];
    FilterStrCons(t1, "x", files[0]);
    FilterStrCons(t2, "x", files[0]);
    FilterStrCons(t3, "x", files[0]);
    var fy := [files[0], files[1], files[3]];
    var u1, u2 := fy[1..], fy[2..];
    assert u1[1..] == u2 && u2[1..] == [] && u1[0] == files[1] && u2[0] == files[3];
    FilterStrCons(fy, "y", files[2]);
    FilterStrCons(u1, "y", files[2]);
    FilterStrCons(u2, "y", files[2]);
  }

  /** Two filters in a row. */
  lemma ApplyTwoFilters(items: seq<string>, f: string, g: string, excl: string)
    ensures ApplyFilters(items, [f, g], excl) == FilterStr(FilterStr(items, f, excl), g, excl)
  {
    var once := FilterStr(items, f, excl);
    assert [f, g][1..] == [g] && [g][1..] == [];
    assert ApplyFilters(items, [f, g], excl) == ApplyFilters(once, [g], excl);
    assert ApplyFilters(once, [g], excl) == ApplyFilters(FilterStr(once, g, excl), [], excl);
  }

  /** The filters of `find_q_files` leave exactly the partner of each
      in-phase file. */
  lemma ExamplePartners(files: seq<string>)
    requires IsExampleListing(files)
    ensures QFileCandidates("d", files[0], files, "i", "q") == [files[1]]
    ensures QFileCandidates("d", files[2], files, "i", "q") == [files[3]]
  {
    ExampleNames(files, 0, 'x');
    ExampleNames(files, 2, 'y');
    ExampleDirFilter(files, 0);
    ExampleDirFilter(files, 2);
    assert files[..0] + files[1..] == files[1..];
    assert files[..2] + files[3..] == [files[0], files[1], files[3]];
    ExampleStemFilter(files);
    ApplyTwoFilters(files, "d", "x", files[0]);
    ApplyTwoFilters(files, "d", "y", files[2]);
  }

  /** Each in-phase file of the example makes a pulse with its partner. */
  lemma ExamplePulseOfInPhase(files: seq<string>, k: nat)
    requires IsExampleListing(files) && (k == 0 || k == 2)
    ensures PulseOf(files[k], files, "i", "q", NoParams) == Some(OcPulse(1, 1.0, files[k], files[k + 1]))
  {
    ExampleNames(files, k, if k == 0 then 'x' else 'y');
    ExampleMarkers(files);
    ExamplePartners(files);
  }

  /** A quadrature file of the example makes no pulse of its own. */
  lemma ExamplePulseOfQuadrature(files: seq<string>, k: nat)
    requires IsExampleListing(files) && (k == 1 || k == 3)
    ensures PulseOf(files[k], files, "i", "q", NoParams) == None
  {
    ExampleMarkers(files);
  }

  /** The pulses found in the example listing: both pairs, each for the
      default target. */
  lemma ExamplePulses(files: seq<string>)
    requires IsExampleListing(files)
    ensures PulsesOf(files, files, "i", "q", NoParams) ==
              [Some(OcPulse(1, 1.0, files[0], files[1])), None, Some(OcPulse(1, 1.0, files[2], files[3])), None]
  {
    PulsesOfFour(files, files, "i", "q", NoParams);
    ExamplePulseOfInPhase(files, 0);
    ExamplePulseOfQuadrature(files, 1);
    ExamplePulseOfInPhase(files, 2);
    ExamplePulseOfQuadrature(files, 3);
  }

  /** The pulses of a four-file listing, file by file. */
  lemma PulsesOfFour(files: seq<string>, allFiles: seq<string>, strI: string, strQ: string,
                     parse: string -> OcParams)
    requires |files| == 4
    ensures PulsesOf(files, allFiles, strI, strQ, parse) ==
              [PulseOf(files[0], allFiles, strI, strQ, parse), PulseOf(files[1], allFiles, strI, strQ, parse),
               PulseOf(files[2], allFiles, strI, strQ, parse), PulseOf(files[3], allFiles, strI, strQ, parse)]
  {
  }

  /** Two pulses for one target, each followed by a file that makes none:
      the check against an empty catalog keeps both. */
  lemma KeepAbsentFromKeepsBoth(a: OcPulse, b: OcPulse)
    ensures KeepAbsentFrom([], [Some(a), None, Some(b), None]) == [a, b]
  {
    var found := [Some(a), None, Some(b), None];
    assert found[..3] == [Some(a), None, Some(b)] && found[..2] == [Some(a), None] && found[..1] == [Some(a)];
    assert found[..0] == [];
    assert KeepAbsentFrom([], found[..1]) == [a];
    assert KeepAbsentFrom([], found[..2]) == [a];
    assert found[..3][..2] == found[..2] && found[..2][..1] == found[..1] && found[..1][..0] == [];
    assert Matches([], b.onNv, b.pix) == [];
    assert KeepAbsentFrom([], found[..3]) == [a, b];
  }

  /** The same found pulses: checking against what was loaded so far keeps
      only the first. */
  lemma KeepFirstKeepsFirst(a: OcPulse, b: OcPulse)
    requires a.EqualTargetU(b)
    ensures KeepFirst([], [Some(a), None, Some(b), None]) == [a]
  {
    var found := [Some(a), None, Some(b), None];
    assert found[..3] == [Some(a), None, Some(b)] && found[..2] == [Some(a), None] && found[..1] == [Some(a)];
    assert found[..0] == [];
    assert KeepFirst([], found[..1]) == [a];
    assert KeepFirst([], found[..2]) == [a];
    assert found[..3][..2] == found[..2] && found[..2][..1] == found[..1] && found[..1][..0] == [];
    assert [] + [a] == [a];
    assert Matches([a], b.onNv, b.pix) == [a] by {
      assert [a][..0] == [];
    }
    assert KeepFirst([], found[..3]) == [a];
  }

  /** The defect of the loader as written: loading that listing, with the
      markers "i" and "q", through the public loader into an empty catalog
      keeps both pairs, so the catalog then repeats a target. */
  lemma LoadAsWrittenKeepsDuplicates(files: seq<string>)
    requires IsExampleListing(files)
    ensures var r := LoadAsWritten([], files, files, "i", "q", NoParams);
            && r == [OcPulse(1, 1.0, files[0], files[1]), OcPulse(1, 1.0, files[2], files[3])]
            && r[0].EqualTargetU(r[1]) && !UniqueTargets(r)
  {
    var a := OcPulse(1, 1.0, files[0], files[1]);
    var b := OcPulse(1, 1.0, files[2], files[3]);
    assert PulsesOf(files, files, "i", "q", NoParams) == [Some(a), None, Some(b), None] by {
      ExamplePulses(files);
    }
    KeepAbsentFromKeepsBoth(a, b);
  }

  /** The corrected loader keeps only the first of the two pairs. */
  lemma LoadUniqueDropsDuplicates(files: seq<string>)
    requires IsExampleListing(files)
    ensures LoadUnique([], files, files, "i", "q", NoParams) == [OcPulse(1, 1.0, files[0], files[1])]
  {
    var a := OcPulse(1, 1.0, files[0], files[1]);
    var b := OcPulse(1, 1.0, files[2], files[3]);
    assert PulsesOf(files, files, "i", "q", NoParams) == [Some(a), None, Some(b), None] by {
      ExamplePulses(files);
    }
    KeepFirstKeepsFirst(a, b);
  }
}
