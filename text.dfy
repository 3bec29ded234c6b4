/** String and path helpers the catalog loader relies on: substring search,
    `str.replace(x, "")`, Windows-style `os.path.basename`/`splitext`,
    `os.path.commonprefix` of two names, and the generator's `list_2_csv`. */
module Text {

  /** `sub in s`. */
  predicate Contains(s: string, sub: string)
    decreases |s|
  {
    sub <= s || (|s| > 0 && Contains(s[1..], sub))
  }

  /** `Contains` finds exactly the occurrences that start somewhere in `s`. */
  lemma {:induction false} ContainsAt(s: string, sub: string)
    ensures Contains(s, sub) <==> exists i :: 0 <= i <= |s| && sub <= s[i..]
  {
    if Contains(s, sub) {
      if !(sub <= s) {
        ContainsAt(s[1..], sub);
        var i :| 0 <= i <= |s[1..]| && sub <= s[1..][i..];
        assert s[1..][i..] == s[i + 1..];
      } else {
        assert s[0..] == s;
      }
    }
    if exists i :: 0 <= i <= |s| && sub <= s[i..] {
      var i :| 0 <= i <= |s| && sub <= s[i..];
      if i > 0 {
        assert s[1..][i - 1..] == s[i..];
        ContainsAt(s[1..], sub);
      } else {
        assert s[0..] == s;
      }
    }
  }

  /** A single character is contained exactly when it occurs. */
  lemma {:induction false} ContainsChar(s: string, c: char)
    ensures Contains(s, [c]) <==> c in s
  {
    if s != [] {
      ContainsChar(s[1..], c);
      assert s == [s[0]] + s[1..];
    }
  }

  /** Nothing contains a longer string; a string of the same length is
      contained only when equal. */
  lemma {:induction false} ContainsByLength(s: string, sub: string)
    ensures |s| < |sub| ==> !Contains(s, sub)
    ensures |s| == |sub| ==> (Contains(s, sub) <==> s == sub)
  {
    if s != [] {
      ContainsByLength(s[1..], sub);
    }
  }

  /** A string contains itself, and any string contains the empty one. */
  lemma ContainsSelf(s: string)
    ensures Contains(s, s) && Contains(s, [])
  {
  }

  /** `s.replace(pat, "")`: one left-to-right pass removing non-overlapping
      occurrences of `pat`; an empty pattern changes nothing. */
  function RemoveAll(s: string, pat: string): (r: string)
    decreases |s|
    ensures |r| <= |s|
  {
    if pat == [] || |s| < |pat| then s
    else if pat <= s then RemoveAll(s[|pat|..], pat)
    else [s[0]] + RemoveAll(s[1..], pat)
  }

  /** A string without the pattern comes back unchanged. */
  lemma {:induction false} RemoveAllAbsent(s: string, pat: string)
    requires !Contains(s, pat)
    ensures RemoveAll(s, pat) == s
  {
    if pat != [] && |s| >= |pat| {
      assert !(pat <= s);
      RemoveAllAbsent(s[1..], pat);
    }
  }

  /** `pat` occurs in `s` at no index other than `i`. */
  predicate OccursOnlyAt(s: string, pat: string, i: nat)
  {
    forall j :: 0 <= j <= |s| && pat <= s[j..] ==> j == i
  }

  /** When `pat` occurs exactly once, at `i`, removing it cuts out just that
      occurrence and keeps the text on both sides. */
  lemma {:induction false} RemoveAllSingle(s: string, pat: string, i: nat)
    requires pat != [] && i + |pat| <= |s| && pat <= s[i..]
    requires OccursOnlyAt(s, pat, i)
    decreases i
    ensures RemoveAll(s, pat) == s[..i] + s[i + |pat|..]
  {
    if i == 0 {
      RemoveAllAtStart(s, pat);
    } else {
      var t := s[1..];
      calc {
        RemoveAll(s, pat);
        { UniqueOccurrenceShifts(s, pat, i); }
        [s[0]] + RemoveAll(t, pat);
        { RemoveAllSingle(t, pat, i - 1); }
        [s[0]] + (t[..i - 1] + t[i - 1 + |pat|..]);
        { CutAfterHead(s, i, |pat|); }
        s[..i] + s[i + |pat|..];
      }
    }
  }

  /** Cutting `s[i..i + n]` out of `s` keeps its first character in front of
      the same cut made in the rest. */
  lemma CutAfterHead(s: string, i: nat, n: nat)
    requires 0 < i && i + n <= |s|
    ensures s[..i] + s[i + n..] == [s[0]] + (s[1..][..i - 1] + s[1..][i - 1 + n..])
  {
    assert s[..i] == [s[0]] + s[1..][..i - 1];
    assert s[1..][i - 1 + n..] == s[i + n..];
  }

  /** A pattern at the start and nowhere else is cut off the front. */
  lemma RemoveAllAtStart(s: string, pat: string)
    requires pat != [] && pat <= s
    requires OccursOnlyAt(s, pat, 0)
    ensures RemoveAll(s, pat) == s[..0] + s[|pat|..]
  {
    var rest := s[|pat|..];
    forall j | 0 <= j <= |rest|
      ensures !(pat <= rest[j..])
    {
      assert rest[j..] == s[|pat| + j..];
    }
    ContainsAt(rest, pat);
    RemoveAllAbsent(rest, pat);
    assert s[..0] == [];
  }

  /** A unique occurrence past the start is not at the start, and it stays
      unique, one place earlier, once the first character is dropped. */
  lemma UniqueOccurrenceShifts(s: string, pat: string, i: nat)
    requires pat != [] && 0 < i && i + |pat| <= |s| && pat <= s[i..]
    requires OccursOnlyAt(s, pat, i)
    ensures !(pat <= s) && RemoveAll(s, pat) == [s[0]] + RemoveAll(s[1..], pat)
    ensures pat <= s[1..][i - 1..] && OccursOnlyAt(s[1..], pat, i - 1)
  {
    assert s[0..] == s;
    var t := s[1..];
    forall j | 0 <= j <= |t| && pat <= t[j..]
      ensures j == i - 1
    {
      assert t[j..] == s[j + 1..];
    }
    assert t[i - 1..] == s[i..];
  }

  predicate IsSep(c: char)
  {
    c == '/' || c == '\\'
  }

  /** Index of the last path separator, or -1 when there is none. */
  function LastSep(s: string): (r: int)
    ensures -1 <= r < |s|
    ensures r >= 0 ==> IsSep(s[r])
    ensures forall j :: r < j < |s| ==> !IsSep(s[j])
  {
    if s == [] then -1
    else if IsSep(s[|s| - 1]) then |s| - 1
    else LastSep(s[..|s| - 1])
  }

  /** `os.path.basename` with both `/` and `\` as separators. */
  function Basename(s: string): string
  {
    s[LastSep(s) + 1..]
  }

  /** The directory part of a path: the text before the last separator. */
  function ParentDir(s: string): string
  {
    if LastSep(s) < 0 then [] else s[..LastSep(s)]
  }

  /** A path is its directory, one separator and its base name; the base
      name holds no separator. */
  lemma PathSplits(s: string)
    ensures forall j :: 0 <= j < |Basename(s)| ==> !IsSep(Basename(s)[j])
    ensures LastSep(s) < 0 ==> Basename(s) == s && ParentDir(s) == []
    ensures LastSep(s) >= 0 ==> s == ParentDir(s) + [s[LastSep(s)]] + Basename(s) && IsSep(s[LastSep(s)])
  {
    var k := LastSep(s);
    assert forall j :: 0 <= j < |Basename(s)| ==> Basename(s)[j] == s[k + 1 + j];
    if k >= 0 {
      assert s == s[..k] + [s[k]] + s[k + 1..];
    }
  }

  /** Index of the last `.`, or -1. */
  function LastDot(s: string): (r: int)
    ensures -1 <= r < |s|
    ensures r >= 0 ==> s[r] == '.'
    ensures forall j :: r < j < |s| ==> s[j] != '.'
  {
    if s == [] then -1
    else if s[|s| - 1] == '.' then |s| - 1
    else LastDot(s[..|s| - 1])
  }

  /** Every character of `s[from..to]` is a dot. */
  predicate AllDots(s: string, from: int, to: int)
    requires 0 <= from && to <= |s|
  {
    forall j :: from <= j < to ==> s[j] == '.'
  }

  /** `os.path.splitext`: the extension starts at the last dot of the base
      name, unless everything before that dot in the base name is dots (so
      `.bashrc` has no extension). */
  function SplitExt(s: string): (r: (string, string))
  {
    var sep := LastSep(s);
    var dot := LastDot(s);
    if dot > sep && !AllDots(s, sep + 1, dot) then (s[..dot], s[dot..]) else (s, [])
  }

  /** Root and extension put back together give the name; an extension is a
      dot followed by neither a dot nor a separator. */
  lemma SplitExtParts(s: string)
    ensures SplitExt(s).0 + SplitExt(s).1 == s
    ensures var ext := SplitExt(s).1;
            ext == [] || (ext[0] == '.' && forall j :: 1 <= j < |ext| ==> ext[j] != '.' && !IsSep(ext[j]))
  {
    var sep := LastSep(s);
    var dot := LastDot(s);
    if dot > sep && !AllDots(s, sep + 1, dot) {
      assert s[..dot] + s[dot..] == s;
      assert forall j :: 1 <= j < |s[dot..]| ==> s[dot..][j] == s[dot + j];
    }
  }

  /** `os.path.commonprefix` of two names. */
  function CommonPrefix(a: string, b: string): (r: string)
    ensures r <= a && r <= b
    ensures |r| == |a| || |r| == |b| || a[|r|] != b[|r|]
  {
    if a == [] || b == [] || a[0] != b[0] then []
    else [a[0]] + CommonPrefix(a[1..], b[1..])
  }

  /** `CommonPrefix` is the longest common prefix: any common prefix is a
      prefix of it. */
  lemma {:induction false} CommonPrefixIsLongest(a: string, b: string, p: string)
    requires p <= a && p <= b
    ensures p <= CommonPrefix(a, b)
  {
    if p != [] {
      assert a[0] == p[0] == b[0];
      assert p[1..] <= a[1..] && p[1..] <= b[1..];
      CommonPrefixIsLongest(a[1..], b[1..], p[1..]);
    }
  }

  // ---------------------------------------------------------------------
  // list_2_csv

  /** The items joined with ", " in between. */
  function Join(items: seq<string>): string
  {
    if items == [] then []
    else if |items| == 1 then items[0]
    else Join(items[..|items| - 1]) + ", " + items[|items| - 1]
  }

  /** The joined text holds every item, plus two characters per gap. */
  lemma {:induction false} JoinLength(items: seq<string>, total: nat)
    requires total == SumLengths(items)
    ensures |Join(items)| == if items == [] then 0 else total + 2 * (|items| - 1)
  {
    if |items| > 1 {
      var init := items[..|items| - 1];
      assert items == init + [items[|items| - 1]];
      SumLengthsAppend(init, items[|items| - 1]);
      JoinLength(init, SumLengths(init));
    } else if |items| == 1 {
      assert items[..0] == [];
    }
  }

  /** Total number of characters in the items. */
  function SumLengths(items: seq<string>): nat
  {
    if items == [] then 0 else SumLengths(items[..|items| - 1]) + |items[|items| - 1]|
  }

  lemma SumLengthsAppend(items: seq<string>, x: string)
    ensures SumLengths(items + [x]) == SumLengths(items) + |x|
  {
    assert (items + [x])[..|items|] == items;
  }

  /** Every item ends up in the joined text, right after the ", " that
      follows its predecessor. */
  lemma {:induction false} JoinHoldsItems(items: seq<string>, i: nat)
    requires i < |items|
    ensures exists k :: 0 <= k <= |Join(items)| && items[i] <= Join(items)[k..]
  {
    var n := |items|;
    if i == n - 1 {
      if n == 1 {
        assert Join(items)[0..] == items[0];
      } else {
        var pre := Join(items[..n - 1]) + ", ";
        assert Join(items)[|pre|..] == items[n - 1];
      }
    } else {
      var init := items[..n - 1];
      JoinHoldsItems(init, i);
      var k :| 0 <= k <= |Join(init)| && init[i] <= Join(init)[k..];
      assert Join(items) == Join(init) + (", " + items[n - 1]);
      assert Join(items)[k..] == Join(init)[k..] + (", " + items[n - 1]);
    }
  }

  /** `list_2_csv`: appends every item followed by ", " and drops the last
      two characters of a non-empty result. */
  method ListToCsv(items: seq<string>) returns (strList: string)
    ensures strList == Join(items)
  {
    strList := [];
    var i := 0;
    while i < |items|
      invariant 0 <= i <= |items|
      invariant i == 0 ==> strList == []
      invariant i > 0 ==> strList == Join(items[..i]) + ", "
    {
      assert items[..i + 1][..i] == items[..i];
      strList := strList + items[i] + ", ";
      i := i + 1;
    }
    assert items[..i] == items;
    if |strList| > 0 {
      strList := strList[..|strList| - 2];
    }
  }
}
