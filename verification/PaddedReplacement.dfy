/** Counting occurrences of a byte string, and replacing the only one in place. */
module PaddedReplacement {
  import opened ByteStrings
  import opened Wrappers

  datatype Error =
    | EmptyOld
    | ReplacementTooLong
    | WrongCount(found: nat)

  ghost predicate OccursAt(needle: Bytes, s: Bytes, i: int) {
    0 <= i && i + |needle| <= |s| && s[i..i + |needle|] == needle
  }

  /** Where breakSubstring splits: the first occurrence, or the end. */
  function Break(needle: Bytes, s: Bytes): (i: nat)
    requires needle != []
    ensures i <= |s|
    ensures i < |s| ==> OccursAt(needle, s, i)
    ensures forall j | 0 <= j < i :: !OccursAt(needle, s, j)
    ensures i == |s| ==> forall j :: !OccursAt(needle, s, j)
    decreases |s|
  {
    if |s| < |needle| then |s|
    else if s[..|needle|] == needle then 0
    else
      var rest := Break(needle, s[1..]);
      assert forall j :: j > 0 && OccursAt(needle, s, j) ==> OccursAt(needle, s[1..], j - 1) by {
        forall j | j > 0 && OccursAt(needle, s, j) ensures OccursAt(needle, s[1..], j - 1) {
          assert s[1..][j - 1..j - 1 + |needle|] == s[j..j + |needle|];
        }
      }
      assert rest < |s[1..]| ==> OccursAt(needle, s, rest + 1) by {
        if rest < |s[1..]| { assert s[1..][rest..rest + |needle|] == s[rest + 1..rest + 1 + |needle|]; }
      }
      rest + 1
  }

  /** countOccurrences: take the first occurrence, go on behind it. */
  function Count(needle: Bytes, s: Bytes): nat
    requires needle != []
    decreases |s|
  {
    var i := Break(needle, s);
    if i == |s| then 0 else 1 + Count(needle, s[i + |needle|..])
  }

  // ----- The greedy count is optimal -----

  /** Positions of pairwise disjoint occurrences, in order. */
  ghost predicate IsPlacement(needle: Bytes, s: Bytes, at: seq<int>) {
    && (forall k | 0 <= k < |at| :: OccursAt(needle, s, at[k]))
    && (forall k | 0 <= k < |at| - 1 :: at[k] + |needle| <= at[k + 1])
  }

  function Shift(at: seq<int>, amount: int): seq<int> {
    seq(|at|, k requires 0 <= k < |at| => at[k] + amount)
  }

  lemma OccurrenceInSuffix(needle: Bytes, s: Bytes, from: nat, i: int)
    requires from <= |s|
    ensures i >= 0 ==> (OccursAt(needle, s[from..], i) <==> OccursAt(needle, s, from + i))
  {
    if i >= 0 && from + i + |needle| <= |s| {
      assert s[from..][i..i + |needle|] == s[from + i..from + i + |needle|];
    }
  }

  /** Count many disjoint occurrences exist. */
  lemma {:induction false} CountIsAttained(needle: Bytes, s: Bytes) returns (at: seq<int>)
    requires needle != []
    ensures IsPlacement(needle, s, at) && |at| == Count(needle, s)
    decreases |s|
  {
    hide Break;
    var i := Break(needle, s);
    if i == |s| { return []; }
    var from := i + |needle|;
    var rest := CountIsAttained(needle, s[from..]);
    at := [i] + Shift(rest, from);
    forall k | 0 <= k < |at| ensures OccursAt(needle, s, at[k]) {
      if k > 0 { OccurrenceInSuffix(needle, s, from, rest[k - 1]); }
    }
    forall k | 0 <= k < |at| - 1 ensures at[k] + |needle| <= at[k + 1] {
      if k > 0 { assert rest[k - 1] + |needle| <= rest[k]; }
    }
  }

  lemma {:induction false} PlacementIsSpread(needle: Bytes, s: Bytes, at: seq<int>, k: nat)
    requires IsPlacement(needle, s, at) && 0 < k < |at|
    ensures at[0] + |needle| <= at[k]
  {
    if k > 1 { PlacementIsSpread(needle, s, at, k - 1); }
  }

  /** No choice of disjoint occurrences has more of them: swapping a first
      occurrence for the leftmost one never hurts. */
  lemma {:induction false} CountIsMaximal(needle: Bytes, s: Bytes, at: seq<int>)
    requires needle != [] && IsPlacement(needle, s, at)
    ensures |at| <= Count(needle, s)
    decreases |s|
  {
    if at == [] { return; }
    var i := Break(needle, s);
    assert OccursAt(needle, s, at[0]) && i <= at[0];
    var from := i + |needle|;
    var rest := Shift(at[1..], -from);
    forall k | 0 <= k < |rest| ensures OccursAt(needle, s[from..], rest[k]) {
      PlacementIsSpread(needle, s, at, k + 1);
      OccurrenceInSuffix(needle, s, from, rest[k]);
    }
    forall k | 0 <= k < |rest| - 1 ensures rest[k] + |needle| <= rest[k + 1] {
      assert at[k + 1] + |needle| <= at[k + 2];
    }
    CountIsMaximal(needle, s[from..], rest);
  }

  // ----- One counted occurrence -----

  /** needle overlaps a copy of itself moved right by p. */
  ghost predicate Overlaps(needle: Bytes, p: int) {
    0 < p < |needle| && needle[p..] == needle[..|needle| - p]
  }

  /** A count of one leaves room for further, overlapping occurrences; each of
      them betrays an overlap of the needle with itself. */
  lemma CountOneMeansOverlap(needle: Bytes, s: Bytes, i: int, j: int)
    requires needle != [] && Count(needle, s) == 1
    requires OccursAt(needle, s, i) && OccursAt(needle, s, j) && i < j
    ensures Overlaps(needle, j - i)
  {
    if i + |needle| <= j {
      CountIsMaximal(needle, s, [i, j]);
      assert false;
    }
    var p := j - i;
    assert needle[p..] == s[j..i + |needle|] by {
      assert s[i..i + |needle|][p..] == s[j..i + |needle|];
    }
    assert needle[..|needle| - p] == s[j..i + |needle|] by {
      assert s[j..j + |needle|][..|needle| - p] == s[j..i + |needle|];
    }
  }

  /** A count of one means a unique occurrence, whatever the contents, exactly
      when the needle does not overlap itself. */
  lemma CountOneIsUniqueIffNoOverlap(needle: Bytes)
    requires needle != []
    ensures (forall s, i, j | Count(needle, s) == 1 && OccursAt(needle, s, i) && OccursAt(needle, s, j) :: i == j)
       <==> (forall p :: !Overlaps(needle, p))
  {
    if forall p :: !Overlaps(needle, p) {
      forall s, i, j | Count(needle, s) == 1 && OccursAt(needle, s, i) && OccursAt(needle, s, j) ensures i == j {
        if i < j { CountOneMeansOverlap(needle, s, i, j); }
        if j < i { CountOneMeansOverlap(needle, s, j, i); }
      }
    } else {
      var p :| Overlaps(needle, p);
      var s := OverlappingContents(needle, p);
      assert !(forall s, i, j | Count(needle, s) == 1 && OccursAt(needle, s, i) && OccursAt(needle, s, j) :: i == j);
    }
  }

  /** Two overlapping occurrences that count as one. */
  lemma OverlappingContents(needle: Bytes, p: int) returns (s: Bytes)
    requires Overlaps(needle, p)
    ensures Count(needle, s) == 1 && OccursAt(needle, s, 0) && OccursAt(needle, s, p)
  {
    s := needle + needle[|needle| - p..];
    assert s[0..|needle|] == needle;
    assert s[p..p + |needle|] == needle[p..] + needle[|needle| - p..] == needle;
    assert Break(needle, s) == 0;
    assert s[|needle|..] == needle[|needle| - p..];
    assert Break(needle, s[|needle|..]) == |s[|needle|..]|;
  }

  // ----- Replacement -----

  const SPACE: byte := 32

  function Padded(original: Bytes, replacement: Bytes): Bytes
    requires |replacement| <= |original|
  {
    replacement + seq(|original| - |replacement|, _ => SPACE)
  }

  /** The file that replace-padded rewrites. */
  class PaddedFile {
    var contents: Bytes

    constructor (initial: Bytes)
      ensures contents == initial
    {
      contents := initial;
    }

    /** Writes only after all checks: a failure leaves the file alone, and a
        success changes nothing outside the first occurrence's window. */
    method Replace(needle: Bytes, replacement: Bytes) returns (r: Result<nat, Error>)
      modifies this
      ensures r.Ok? <==> needle != [] && |replacement| <= |needle| && Count(needle, old(contents)) == 1
      ensures needle == [] ==> r == Err(EmptyOld)
      ensures needle != [] && |replacement| > |needle| ==> r == Err(ReplacementTooLong)
      ensures needle != [] && |replacement| <= |needle| && r.Err? ==> r == Err(WrongCount(Count(needle, old(contents))))
      ensures r.Err? ==> contents == old(contents)
      ensures r.Ok? ==>
        && OccursAt(needle, old(contents), r.value)
        && (forall j | OccursAt(needle, old(contents), j) :: r.value <= j)
        && |contents| == |old(contents)|
        && (forall k | 0 <= k < |contents| && !(r.value <= k < r.value + |needle|) :: contents[k] == old(contents)[k])
        && contents[r.value..r.value + |replacement|] == replacement
        && (forall k | r.value + |replacement| <= k < r.value + |needle| :: contents[k] == SPACE)
    {
      if needle == [] { return Err(EmptyOld); }
      if |replacement| > |needle| { return Err(ReplacementTooLong); }
      var count := Count(needle, contents);
      if count != 1 { return Err(WrongCount(count)); }
      var i := Break(needle, contents);
      var prefix, suffix := contents[..i], contents[i + |needle|..];
      contents := prefix + Padded(needle, replacement) + suffix;
      assert contents[i..i + |replacement|] == replacement;
      r := Ok(i);
    }
  }
}
