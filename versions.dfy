/**
 * `compare_versions(v1, v2)`: both version strings lose their trailing `.0` groups
 * (`re.sub(r'(\.0+)*$', '', v)`), are split on '.', every piece goes through `int()`,
 * and the integer lists are compared with Python's list `>=`.
 */
module Versions {
  import opened Wrappers
  import opened PyStrings

  /** Position `k` of `t` is a zero, or a dot that a zero follows. */
  predicate ZeroGroupAt(t: string, k: nat)
    requires k < |t|
  {
    t[k] == '0' || (t[k] == '.' && k + 1 < |t| && t[k + 1] == '0')
  }

  /** `t` is in the language of `(\.0+)*`: empty, or dot-led groups of one or more zeros. */
  predicate IsZeroGroups(t: string) {
    t == [] || (t[0] == '.' && forall k :: 0 <= k < |t| ==> ZeroGroupAt(t, k))
  }

  /** Scans from `p` for the leftmost start of a suffix matching `(\.0+)*$`, as the regex search does. */
  function CutPoint(s: string, p: nat): (q: nat)
    requires p <= |s|
    decreases |s| - p
    ensures p <= q <= |s| && IsZeroGroups(s[q..])
    ensures forall k :: p <= k < q ==> !IsZeroGroups(s[k..])
  {
    if IsZeroGroups(s[p..]) then p else CutPoint(s, p + 1)
  }

  /**
   * `re.sub(r'(\.0+)*$', '', v)`: the leftmost match runs to the end of `v` and is deleted;
   * the search resumes at the end, where the only further match is empty.
   */
  function TrimZeroGroups(v: string): (r: string)
    ensures |r| <= |v| && r == v[..|r|]
    ensures IsZeroGroups(v[|r|..])
    ensures forall k :: 0 <= k < |r| ==> !IsZeroGroups(v[k..])
  {
    v[..CutPoint(v, 0)]
  }

  /** `int(x)` on the pieces `split` produces: succeeds exactly on non-empty ASCII digit strings. */
  function ParseInt(x: string): (r: Option<nat>)
    ensures r.Some? <==> x != [] && forall k :: 0 <= k < |x| ==> IsAsciiDigit(x[k])
  {
    if x != [] && forall k :: 0 <= k < |x| ==> IsAsciiDigit(x[k]) then Some(DigitsValue(x)) else None
  }

  /** `[int(x) for x in parts]`: `None` as soon as one piece raises `ValueError`. */
  function ParseInts(parts: seq<string>): (r: Option<seq<nat>>)
    ensures r.Some? <==> forall k :: 0 <= k < |parts| ==> ParseInt(parts[k]).Some?
    ensures r.Some? ==> |r.value| == |parts| && forall k :: 0 <= k < |parts| ==> r.value[k] == ParseInt(parts[k]).value
  {
    if parts == [] then Some([])
    else match (ParseInt(parts[0]), ParseInts(parts[1..]))
      case (Some(n), Some(ns)) => Some([n] + ns)
      case _ => None
  }

  /** The `normalize` helper of `compare_versions`. */
  function Normalize(v: string): Option<seq<nat>> {
    ParseInts(Split(TrimZeroGroups(v), '.'))
  }

  /** Python's `a < b` on lists: the first differing element decides; a proper prefix is smaller. */
  predicate ListLess(a: seq<nat>, b: seq<nat>) {
    b != [] && (a == [] || a[0] < b[0] || (a[0] == b[0] && ListLess(a[1..], b[1..])))
  }

  /** Python's `a >= b` on lists. */
  predicate ListGe(a: seq<nat>, b: seq<nat>) {
    !ListLess(a, b)
  }

  /** `compare_versions(v1, v2)`; `None` stands for the `ValueError` that `int()` raises. */
  function CompareVersions(v1: string, v2: string): Option<bool> {
    match (Normalize(v1), Normalize(v2))
    case (Some(a), Some(b)) => Some(ListGe(a, b))
    case _ => None
  }

  // ---------------------------------------------------------------------------
  // Trailing zero groups do not matter

  /** Appending one more group `.0…0` keeps a string inside or outside `(\.0+)*`. */
  lemma ZeroGroupsExtend(t: string, z: string)
    requires z != [] && forall k :: 0 <= k < |z| ==> z[k] == '0'
    ensures IsZeroGroups(t + "." + z) <==> IsZeroGroups(t)
  {
    var u := t + "." + z;
    assert forall k :: 0 <= k < |t| ==> u[k] == t[k];
    assert u[|t|] == '.' && u[|t| + 1] == '0';
    assert forall k :: |t| < k < |u| ==> u[k] == '0';
    if IsZeroGroups(t) && t != [] {
      forall k | 0 <= k < |u| ensures ZeroGroupAt(u, k) {
        if k + 1 < |t| {
          assert ZeroGroupAt(t, k);
        } else if k + 1 == |t| {
          assert ZeroGroupAt(t, k);
          assert t[k] == '0';
        }
      }
    }
    if IsZeroGroups(u) && t != [] {
      forall k | 0 <= k < |t| ensures ZeroGroupAt(t, k) {
        assert ZeroGroupAt(u, k);
        if k + 1 == |t| { assert u[k] == '0'; }
      }
    }
  }

  lemma {:induction false} CutPointExtend(s: string, z: string, p: nat)
    requires z != [] && forall k :: 0 <= k < |z| ==> z[k] == '0'
    requires p <= |s|
    decreases |s| - p
    ensures CutPoint(s + "." + z, p) == CutPoint(s, p)
  {
    var u := s + "." + z;
    assert u[p..] == s[p..] + "." + z;
    ZeroGroupsExtend(s[p..], z);
    if !IsZeroGroups(s[p..]) {
      CutPointExtend(s, z, p + 1);
    }
  }

  /** Trailing `.0` groups are cut off, so one more of them leaves the trimmed string as it was. */
  lemma TrimIgnoresZeroGroup(v: string, z: string)
    requires z != [] && forall k :: 0 <= k < |z| ==> z[k] == '0'
    ensures TrimZeroGroups(v + "." + z) == TrimZeroGroups(v)
  {
    CutPointExtend(v, z, 0);
    var c := CutPoint(v, 0);
    assert (v + "." + z)[..c] == v[..c];
  }

  /** `compare_versions` treats `v + ".0"` (or `".00"`, ...) exactly like `v`, on either side. */
  lemma CompareIgnoresTrailingZeroGroup(v: string, z: string, w: string)
    requires z != [] && forall k :: 0 <= k < |z| ==> z[k] == '0'
    ensures CompareVersions(v + "." + z, w) == CompareVersions(v, w)
    ensures CompareVersions(w, v + "." + z) == CompareVersions(w, v)
  {
    TrimIgnoresZeroGroup(v, z);
  }

  // ---------------------------------------------------------------------------
  // Python's list ordering is a total order, so `compare_versions` is one on valid versions

  lemma {:induction false} ListGeReflexive(a: seq<nat>)
    ensures ListGe(a, a)
  {
    if a != [] { ListGeReflexive(a[1..]); }
  }

  lemma {:induction false} ListGeTotal(a: seq<nat>, b: seq<nat>)
    ensures ListGe(a, b) || ListGe(b, a)
  {
    if a != [] && b != [] && a[0] == b[0] { ListGeTotal(a[1..], b[1..]); }
  }

  lemma {:induction false} ListGeAntisymmetric(a: seq<nat>, b: seq<nat>)
    requires ListGe(a, b) && ListGe(b, a)
    ensures a == b
  {
    if a != [] && b != [] {
      ListGeAntisymmetric(a[1..], b[1..]);
      assert a == [a[0]] + a[1..] && b == [b[0]] + b[1..];
    }
  }

  lemma {:induction false} ListGeTransitive(a: seq<nat>, b: seq<nat>, c: seq<nat>)
    requires ListGe(a, b) && ListGe(b, c)
    ensures ListGe(a, c)
  {
    if a != [] && b != [] && c != [] && a[0] == b[0] == c[0] {
      ListGeTransitive(a[1..], b[1..], c[1..]);
    }
  }

  /**
   * Python's list `>=` without recursion: where the lists first differ, `a` holds the larger
   * number, or `b` is a prefix of `a`.
   */
  predicate GeAtFirstDifference(a: seq<nat>, b: seq<nat>) {
    || (exists k :: 0 <= k < |a| && k < |b| && a[..k] == b[..k] && a[k] > b[k])
    || (|b| <= |a| && a[..|b|] == b)
  }

  /** A list that is `>=` another in this sense does not start lower. */
  lemma FirstDifferenceHead(a: seq<nat>, b: seq<nat>)
    requires a != [] && b != []
    ensures GeAtFirstDifference(a, b) ==> a[0] >= b[0]
  {
    if k :| 0 <= k < |a| && k < |b| && a[..k] == b[..k] && a[k] > b[k] {
      if k > 0 { assert a[..k][0] == b[..k][0]; }
    } else if |b| <= |a| && a[..|b|] == b {
      assert a[..|b|][0] == b[0];
    }
  }

  /** Behind an equal first element, a first difference in the lists is one in their tails. */
  lemma FirstDifferenceDrop(a: seq<nat>, b: seq<nat>)
    requires a != [] && b != [] && a[0] == b[0] && GeAtFirstDifference(a, b)
    ensures GeAtFirstDifference(a[1..], b[1..])
  {
    var a', b' := a[1..], b[1..];
    if k :| 0 <= k < |a| && k < |b| && a[..k] == b[..k] && a[k] > b[k] {
      assert k > 0;
      assert a'[..k - 1] == a[..k][1..] && b'[..k - 1] == b[..k][1..];
      assert a'[k - 1] > b'[k - 1];
    } else {
      assert |b| <= |a| && a[..|b|] == b;
      assert a'[..|b'|] == a[..|b|][1..] && b' == b[1..];
    }
  }

  /** Behind an equal first element, a first difference in the tails is one in the lists. */
  lemma FirstDifferenceAdd(a: seq<nat>, b: seq<nat>)
    requires a != [] && b != [] && a[0] == b[0] && GeAtFirstDifference(a[1..], b[1..])
    ensures GeAtFirstDifference(a, b)
  {
    var a', b' := a[1..], b[1..];
    if j :| 0 <= j < |a'| && j < |b'| && a'[..j] == b'[..j] && a'[j] > b'[j] {
      assert a[..j + 1] == [a[0]] + a'[..j] && b[..j + 1] == [b[0]] + b'[..j];
      assert a[j + 1] > b[j + 1];
    } else {
      assert |b'| <= |a'| && a'[..|b'|] == b';
      assert a[..|b|] == [a[0]] + a'[..|b'|] && b == [b[0]] + b';
    }
  }

  /** The recursive list order and the first-difference description agree on every pair of lists. */
  lemma {:induction false} ListGeAtFirstDifference(a: seq<nat>, b: seq<nat>)
    ensures ListGe(a, b) <==> GeAtFirstDifference(a, b)
  {
    if b == [] {
      assert a[..0] == b;
    } else if a != [] {
      if a[0] == b[0] {
        ListGeAtFirstDifference(a[1..], b[1..]);
        if GeAtFirstDifference(a, b) { FirstDifferenceDrop(a, b); }
        if GeAtFirstDifference(a[1..], b[1..]) { FirstDifferenceAdd(a, b); }
      } else if a[0] > b[0] {
        assert a[..0] == b[..0];
      } else {
        FirstDifferenceHead(a, b);
      }
    }
  }

  /**
   * What `compare_versions(v, w)` answers: it raises exactly when a side does not
   * normalise, and otherwise returns True exactly when, at the first group where the
   * normalised lists differ, `v` holds the larger number, or `w`'s list is a prefix of `v`'s.
   */
  lemma CompareVersionsMeaning(v: string, w: string)
    ensures CompareVersions(v, w).None? <==> Normalize(v).None? || Normalize(w).None?
    ensures CompareVersions(v, w) == Some(true) <==>
      Normalize(v).Some? && Normalize(w).Some? && GeAtFirstDifference(Normalize(v).value, Normalize(w).value)
  {
    if Normalize(v).Some? && Normalize(w).Some? {
      ListGeAtFirstDifference(Normalize(v).value, Normalize(w).value);
    }
  }

  /** A version compares `>=` itself, and any two valid versions are comparable one way or the other. */
  lemma CompareVersionsTotal(v: string, w: string)
    requires Normalize(v).Some? && Normalize(w).Some?
    ensures CompareVersions(v, v) == Some(true)
    ensures CompareVersions(v, w) == Some(true) || CompareVersions(w, v) == Some(true)
  {
    ListGeReflexive(Normalize(v).value);
    ListGeTotal(Normalize(v).value, Normalize(w).value);
  }

  /** Two versions that each compare `>=` the other normalize to the same integer list. */
  lemma CompareVersionsAntisymmetric(v: string, w: string)
    requires CompareVersions(v, w) == Some(true) && CompareVersions(w, v) == Some(true)
    ensures Normalize(v) == Normalize(w)
  {
    ListGeAntisymmetric(Normalize(v).value, Normalize(w).value);
  }

  lemma CompareVersionsTransitive(u: string, v: string, w: string)
    requires CompareVersions(u, v) == Some(true) && CompareVersions(v, w) == Some(true)
    ensures CompareVersions(u, w) == Some(true)
  {
    ListGeTransitive(Normalize(u).value, Normalize(v).value, Normalize(w).value);
  }

  /** A piece that is not a plain digit string makes the comparison raise. */
  lemma NonNumericPieceRaises(v: string, w: string, k: nat)
    requires k < |Split(TrimZeroGroups(v), '.')|
    requires ParseInt(Split(TrimZeroGroups(v), '.')[k]).None?
    ensures CompareVersions(v, w).None? && CompareVersions(w, v).None?
  {
  }

  /** Splitting a digit followed by the rest: the digit joins the rest's first piece. */
  lemma SplitDigitFirst(d: char, rest: string, first: string, others: seq<string>)
    requires d != '.' && Split(rest, '.') == [first] + others
    ensures Split([d] + rest, '.') == [[d] + first] + others
  {
    assert ([d] + rest)[1..] == rest;
    assert ([first] + others)[1..] == others;
  }

  lemma SplitDotFirst(rest: string)
    ensures Split("." + rest, '.') == [[]] + Split(rest, '.')
  {
    assert ("." + rest)[1..] == rest;
  }

  /** `int()` of a one-digit piece. */
  lemma ParseOneDigit(d: char)
    requires IsAsciiDigit(d)
    ensures ParseInt([d]) == Some(d as int - '0' as int)
  {
    assert [d][..0] == [];
    assert forall k :: 0 <= k < |[d]| ==> IsAsciiDigit([d][k]);
    assert DigitsValue([d]) == d as int - '0' as int;
  }

  lemma ParseIntsCons(x: string, rest: seq<string>, n: nat, ns: seq<nat>)
    requires ParseInt(x) == Some(n) && ParseInts(rest) == Some(ns)
    ensures ParseInts([x] + rest) == Some([n] + ns)
  {
    assert ([x] + rest)[1..] == rest;
  }

  /** `"d.e".split('.')` for two non-dot characters. */
  lemma SplitAroundDot(d: char, e: char)
    requires d != '.' && e != '.'
    ensures Split([d, '.', e], '.') == [[d], [e]]
  {
    assert Split("", '.') == [""];
    SplitDigitFirst(e, "", "", []);
    assert [e] + "" == [e] && [[e] + ""] + [] == [[e]];
    SplitDotFirst([e]);
    assert "." + [e] == ['.', e] && [[]] + [[e]] == ["", [e]];
    SplitDigitFirst(d, ['.', e], "", [[e]]);
    assert [d] + ['.', e] == [d, '.', e] && [d] + "" == [d] && [[d] + ""] + [[e]] == [[d], [e]];
  }

  lemma SplitTwoSixNine()
    ensures Split("2.6.9", '.') == ["2", "6", "9"]
  {
    SplitAroundDot('6', '9');
    SplitDotFirst("6.9");
    assert "." + "6.9" == ".6.9" && [[]] + ["6", "9"] == ["", "6", "9"];
    SplitDigitFirst('2', ".6.9", "", ["6", "9"]);
    assert ['2'] + ".6.9" == "2.6.9" && ['2'] + "" == "2" && [['2'] + ""] + ["6", "9"] == ["2", "6", "9"];
  }

  lemma NormalizeTwoSeven()
    ensures Normalize("2.7") == Some([2, 7])
    ensures Normalize("2.7.0") == Some([2, 7])
  {
    assert "2.7" + "." + "0" == "2.7.0";
    TrimIgnoresZeroGroup("2.7", "0");
    assert TrimZeroGroups("2.7") == "2.7" by {
      var s := "2.7";
      assert s[0] != '.' && !ZeroGroupAt(s[1..], 1) && s[2] != '.';
      assert IsZeroGroups(s[3..]);
    }
    SplitAroundDot('2', '7');
    ParseTwoSeven();
  }

  lemma ParseTwoSeven()
    ensures ParseInts(["2", "7"]) == Some([2, 7])
  {
    ParseOneDigit('2');
    ParseOneDigit('7');
    assert ParseInts([]) == Some([]);
    ParseIntsCons("7", [], 7, []);
    assert ["7"] + [] == ["7"] && [7] + [] == [7];
    ParseIntsCons("2", ["7"], 2, [7]);
    assert ["2"] + ["7"] == ["2", "7"] && [2] + [7] == [2, 7];
  }

  lemma ParseTwoSixNine()
    ensures ParseInts(["2", "6", "9"]) == Some([2, 6, 9])
  {
    ParseOneDigit('2');
    ParseOneDigit('6');
    ParseOneDigit('9');
    assert ParseInts([]) == Some([]);
    ParseIntsCons("9", [], 9, []);
    assert ["9"] + [] == ["9"] && [9] + [] == [9];
    ParseIntsCons("6", ["9"], 6, [9]);
    assert ["6"] + ["9"] == ["6", "9"] && [6] + [9] == [6, 9];
    ParseIntsCons("2", ["6", "9"], 2, [6, 9]);
    assert ["2"] + ["6", "9"] == ["2", "6", "9"] && [2] + [6, 9] == [2, 6, 9];
  }

  lemma TrimTwoSixNine()
    ensures TrimZeroGroups("2.6.9") == "2.6.9"
  {
    var s := "2.6.9";
    assert s[0] != '.' && !ZeroGroupAt(s[1..], 1) && s[2] != '.' && !ZeroGroupAt(s[3..], 1) && s[4] != '.';
    assert IsZeroGroups(s[5..]);
  }

  lemma NormalizeTwoSixNine()
    ensures Normalize("2.6.9") == Some([2, 6, 9])
  {
    TrimTwoSixNine();
    SplitTwoSixNine();
    ParseTwoSixNine();
  }

  /** The minimum apktool version "2.7.0" is met by "2.7", and "2.6.9" falls short of it. */
  lemma MinimumVersionExamples()
    ensures CompareVersions("2.7", "2.7.0") == Some(true)
    ensures CompareVersions("2.6.9", "2.7.0") == Some(false)
  {
    NormalizeTwoSeven();
    NormalizeTwoSixNine();
    ListGeReflexive([2, 7]);
    TwoSixNineBelowTwoSeven();
    assert CompareVersions("2.7", "2.7.0") == Some(ListGe([2, 7], [2, 7]));
    assert CompareVersions("2.6.9", "2.7.0") == Some(ListGe([2, 6, 9], [2, 7]));
  }

  lemma TwoSixNineBelowTwoSeven()
    ensures ListLess([2, 6, 9], [2, 7])
  {
    assert [2, 6, 9][1..] == [6, 9] && [2, 7][1..] == [7];
  }
}
