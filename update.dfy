/** internal/update/update.go, the version comparison used by self-update:
    versions such as "v0.3.0" or "v1.0" are compared segment by segment
    as integers, a missing segment counting as 0. */
module Update {
  import opened Wrappers
  import opened Strings

  /** strconv.Atoi with its error ignored: a segment that is not a number
      counts as 0. */
  function SegmentValue(p: string): (n: int)
    ensures AllDigits(p) && p != [] ==> n == DigitsValue(p)
    ensures Atoi(p).None? ==> n == 0
  {
    match Atoi(p)
    case Some(n) => n
    case None => 0
  }

  /** The segments of a version: one leading "v" dropped, split on ".". */
  function Segments(v: string): (parts: seq<string>)
    ensures |parts| >= 1
    ensures forall i :: 0 <= i < |parts| ==> '.' !in parts[i]
  {
    Split(TrimPrefix(v, "v"), '.')
  }

  /** Joining the segments with "." gives back the version without its "v". */
  lemma SegmentsJoin(v: string)
    ensures JoinWith(Segments(v), '.') == TrimPrefix(v, "v")
  {
    SplitJoin(TrimPrefix(v, "v"), '.');
  }

  /** parseVersion: one number per segment, in order. */
  method ParseVersion(v: string) returns (nums: seq<int>)
    ensures nums == Parsed(v)
  {
    nums := SegmentValues(Segments(v));
    ParsedIs(v, nums);
  }

  /** parseVersion's loop: nums[i] is the value of parts[i]. */
  method SegmentValues(parts: seq<string>) returns (nums: seq<int>)
    ensures |nums| == |parts| && forall i :: 0 <= i < |parts| ==> nums[i] == SegmentValue(parts[i])
  {
    var a := new int[|parts|];
    for i := 0 to |parts|
      invariant forall j :: 0 <= j < i ==> a[j] == SegmentValue(parts[j])
    {
      a[i] := SegmentValue(parts[i]);
    }
    nums := a[..];
  }

  /** Segment `i` of a parsed version, 0 past its end. */
  function At(parts: seq<int>, i: nat): int {
    if i < |parts| then parts[i] else 0
  }

  function Max(a: nat, b: nat): nat { if a < b then b else a }

  /** The comparison from segment `i` on: the first segment where the two
      differ decides; equal throughout means 0. */
  function CompareFrom(a: seq<int>, b: seq<int>, i: nat): (r: int)
    ensures r == -1 || r == 0 || r == 1
    decreases Max(|a|, |b|) - i
  {
    if i >= Max(|a|, |b|) then 0
    else if At(a, i) < At(b, i) then -1
    else if At(a, i) > At(b, i) then 1
    else CompareFrom(a, b, i + 1)
  }

  /** CompareVersions: -1 if a < b, 0 if they are equal, 1 if a > b. */
  method CompareVersions(a: string, b: string) returns (r: int)
    ensures r == CompareFrom(Parsed(a), Parsed(b), 0)
    ensures r == -1 || r == 0 || r == 1
  {
    var aParts := ParseVersion(a);
    var bParts := ParseVersion(b);
    var maxLen := |aParts|;
    if |bParts| > maxLen {
      maxLen := |bParts|;
    }
    for i := 0 to maxLen
      invariant CompareFrom(aParts, bParts, 0) == CompareFrom(aParts, bParts, i)
    {
      var av, bv := 0, 0;
      if i < |aParts| {
        av := aParts[i];
      }
      if i < |bParts| {
        bv := bParts[i];
      }
      if av < bv {
        return -1;
      }
      if av > bv {
        return 1;
      }
    }
    return 0;
  }

  /** The numbers ParseVersion yields, as a function. */
  function Parsed(v: string): (nums: seq<int>)
    ensures |nums| == |Segments(v)|
    ensures forall i :: 0 <= i < |nums| ==> nums[i] == SegmentValue(Segments(v)[i])
  {
    seq(|Segments(v)|, i requires 0 <= i < |Segments(v)| => SegmentValue(Segments(v)[i]))
  }

  lemma ParsedIs(v: string, nums: seq<int>)
    requires |nums| == |Segments(v)|
    requires forall i :: 0 <= i < |nums| ==> nums[i] == SegmentValue(Segments(v)[i])
    ensures nums == Parsed(v)
  {
  }

  /** IsUpdateAvailable: never for a "dev" build; otherwise exactly when the
      current version compares below the latest. */
  method IsUpdateAvailable(current: string, latest: string) returns (r: bool)
    ensures r <==> current != "dev" && CompareFrom(Parsed(current), Parsed(latest), 0) < 0
  {
    if current == "dev" {
      return false;
    }
    var c := CompareVersions(current, latest);
    r := c < 0;
  }

  // ---- properties of the comparison ----

  /** A version compares equal to itself. */
  lemma {:induction false} CompareReflexive(a: seq<int>, i: nat)
    ensures CompareFrom(a, a, i) == 0
    decreases Max(|a|, |a|) - i
  {
    if i < |a| {
      CompareReflexive(a, i + 1);
    }
  }

  /** Swapping the arguments negates the result. */
  lemma {:induction false} CompareAntisymmetric(a: seq<int>, b: seq<int>, i: nat)
    ensures CompareFrom(a, b, i) == -CompareFrom(b, a, i)
    decreases Max(|a|, |b|) - i
  {
    if i < Max(|a|, |b|) && At(a, i) == At(b, i) {
      CompareAntisymmetric(a, b, i + 1);
    }
  }

  /** Equal exactly when every segment agrees, missing ones counting as 0;
      so "v1.0" and "v1.0.0" are equal. */
  lemma {:induction false} CompareZeroIff(a: seq<int>, b: seq<int>, i: nat)
    ensures CompareFrom(a, b, i) == 0 <==> forall j :: i <= j ==> At(a, j) == At(b, j)
    decreases Max(|a|, |b|) - i
  {
    if i < Max(|a|, |b|) {
      CompareZeroIff(a, b, i + 1);
      if At(a, i) == At(b, i) {
        assert forall j :: i <= j ==> At(a, j) == At(b, j) <==> j == i || i + 1 <= j ==> At(a, j) == At(b, j);
      }
    } else {
      assert forall j :: i <= j ==> At(a, j) == 0 && At(b, j) == 0;
    }
  }

  /** Below exactly when the first differing segment is smaller. */
  lemma {:induction false} CompareBelowIff(a: seq<int>, b: seq<int>, i: nat)
    ensures CompareFrom(a, b, i) == -1 <==>
            exists j :: i <= j && At(a, j) < At(b, j) && forall k :: i <= k < j ==> At(a, k) == At(b, k)
    decreases Max(|a|, |b|) - i
  {
    if i < Max(|a|, |b|) {
      CompareBelowIff(a, b, i + 1);
      if At(a, i) < At(b, i) {
        assert i <= i && At(a, i) < At(b, i);
      } else if At(a, i) == At(b, i) {
        if CompareFrom(a, b, i + 1) == -1 {
          var j :| i + 1 <= j && At(a, j) < At(b, j) && forall k :: i + 1 <= k < j ==> At(a, k) == At(b, k);
          assert forall k :: i <= k < j ==> At(a, k) == At(b, k);
        }
      }
    } else {
      assert forall j :: i <= j ==> At(a, j) == 0 && At(b, j) == 0;
    }
  }

  /** Comparing versions is transitive. */
  lemma {:induction false} CompareTransitive(a: seq<int>, b: seq<int>, c: seq<int>, i: nat)
    requires CompareFrom(a, b, i) == -1 && CompareFrom(b, c, i) == -1
    ensures CompareFrom(a, c, i) == -1
    decreases Max(Max(|a|, |b|), |c|) - i
  {
    if At(a, i) == At(b, i) && At(b, i) == At(c, i) {
      CompareTransitive(a, b, c, i + 1);
    }
  }

  /** The value of a one- or two-digit segment. */
  lemma SmallSegment(p: string)
    requires 1 <= |p| <= 2 && AllDigits(p)
    ensures SegmentValue(p) == if |p| == 1 then p[0] as int - '0' as int
                               else 10 * (p[0] as int - '0' as int) + (p[1] as int - '0' as int)
  {
    var d0 := p[0] as int - '0' as int;
    if |p| == 1 {
      assert p[..0] == [];
      assert DigitsValue(p) == 10 * DigitsValue([]) + d0;
    } else {
      var q := p[..1];
      assert q == [p[0]] && q[..0] == [];
      assert DigitsValue(q) == 10 * DigitsValue([]) + d0;
      assert DigitsValue(p) == 10 * DigitsValue(q) + (p[1] as int - '0' as int);
    }
  }

  /** Update checks never offer the running version, nor an older one. */
  lemma NoUpdateToSameOrOlder(current: string, latest: string)
    requires CompareFrom(Parsed(latest), Parsed(current), 0) <= 0
    ensures !(current != "dev" && CompareFrom(Parsed(current), Parsed(latest), 0) < 0)
  {
    CompareAntisymmetric(Parsed(current), Parsed(latest), 0);
  }

  /** The segments of "v" followed by separator-free pieces joined with "."
      are those pieces. */
  lemma SegmentsOf(v: string, parts: seq<string>)
    requires |parts| >= 1 && forall i :: 0 <= i < |parts| ==> '.' !in parts[i]
    requires v == "v" + JoinWith(parts, '.')
    ensures Segments(v) == parts
  {
    assert HasPrefix(v, "v");
    SplitOfJoin(parts, '.');
  }

  /** A version written "v" + pieces joined with "." parses to the pieces'
      values. */
  lemma ParsedOf(v: string, parts: seq<string>, nums: seq<int>)
    requires |parts| >= 1 && forall i :: 0 <= i < |parts| ==> '.' !in parts[i]
    requires v == "v" + JoinWith(parts, '.')
    requires |nums| == |parts| && forall i :: 0 <= i < |parts| ==> SegmentValue(parts[i]) == nums[i]
    ensures Parsed(v) == nums
  {
    SegmentsOf(v, parts);
    ParsedIs(v, nums);
  }

  lemma ThreeSegments(v: string, a: string, b: string, c: string)
    requires '.' !in a && '.' !in b && '.' !in c
    requires v == "v" + a + "." + b + "." + c
    ensures Parsed(v) == [SegmentValue(a), SegmentValue(b), SegmentValue(c)]
  {
    JoinCons(b, [c], '.');
    JoinCons(a, [b, c], '.');
    assert [a, b, c] == [a] + [b, c];
    ParsedOf(v, [a, b, c], [SegmentValue(a), SegmentValue(b), SegmentValue(c)]);
  }

  /** Segments compare as numbers, not as text: "10" sorts before "9" as a
      string, yet "vA.10.C" is newer than "vA.9.C" (v0.10.0 above v0.9.0). */
  lemma SegmentsCompareNumerically(major: string, patch: string)
    requires '.' !in major && '.' !in patch
    ensures LexLess("10", "9")
    ensures CompareFrom(Parsed("v" + major + "." + "10" + "." + patch),
                        Parsed("v" + major + "." + "9" + "." + patch), 0) == 1
  {
    SmallSegment("10");
    SmallSegment("9");
    ThreeSegments("v" + major + "." + "10" + "." + patch, major, "10", patch);
    ThreeSegments("v" + major + "." + "9" + "." + patch, major, "9", patch);
  }

  lemma SegmentsAppendZero(v: string)
    ensures Segments(v + ".0") == Segments(v) + ["0"]
  {
    if HasPrefix(v, "v") {
      assert TrimPrefix(v + ".0", "v") == TrimPrefix(v, "v") + ".0" by {
        assert (v + ".0")[..1] == v[..1];
      }
    } else {
      assert !HasPrefix(v + ".0", "v") by {
        if v != [] {
          assert (v + ".0")[..1] == v[..1];
        } else {
          assert (v + ".0")[..1] == ".";
        }
      }
    }
    assert TrimPrefix(v, "v") + ".0" == TrimPrefix(v, "v") + ['.'] + "0";
    SplitSnoc(TrimPrefix(v, "v"), '.', "0");
  }

  /** parseVersion on a version with ".0" appended: one more segment, 0. */
  lemma ParsedAppendZero(v: string)
    ensures Parsed(v + ".0") == Parsed(v) + [0]
  {
    SegmentsAppendZero(v);
    SmallSegment("0");
    var nums := Parsed(v) + [0];
    assert forall i :: 0 <= i < |nums| ==> nums[i] == SegmentValue(Segments(v + ".0")[i]);
    ParsedIs(v + ".0", nums);
  }

  /** A missing segment counts as 0: appending ".0" to any version adds a
      zero segment and compares equal ("v1.0" and "v1.0.0"). */
  lemma MissingSegmentIsZero(v: string)
    ensures CompareFrom(Parsed(v), Parsed(v + ".0"), 0) == 0
  {
    ParsedAppendZero(v);
    var a, b := Parsed(v), Parsed(v) + [0];
    assert forall j :: 0 <= j ==> At(a, j) == At(b, j);
    CompareZeroIff(a, b, 0);
  }
}
