/**
 * Taxonomy lines and paths: the `" > "`-separated category paths, and which
 * lines of a taxonomy file the navigator keeps and marks as leaves.
 */
module Taxonomy {
  import opened Lists
  import opened Text

  /** The separator between the levels of a category path. */
  const Separator: string := " > "

  /** `path.split(" > ")`. */
  function Segments(path: string): (r: seq<string>)
    ensures |r| >= 1
  {
    Split(path, Separator)
  }

  /** Joining the segments with the separator gives back the path; no segment holds the separator. */
  lemma SegmentsShape(path: string)
    ensures Join(Segments(path), Separator) == path
    ensures forall k :: 0 <= k < |Segments(path)| ==> !Contains(Segments(path)[k], Separator)
  {
    SplitJoin(path, Separator);
    SplitPartsFree(path, Separator);
  }

  /**
   * A path of two separator-free names splits back into them, provided the
   * first does not end in `" >"` (which would start a separator one place early).
   */
  lemma SegmentsOfTwoLevels(l1: string, leaf: string)
    requires !Contains(l1, Separator) && !EndsWith(l1, " >")
    requires !Contains(leaf, Separator)
    ensures Segments(l1 + Separator + leaf) == [l1, leaf]
  {
    var s := l1 + Separator + leaf;
    var n := |l1|;
    assert s[..n] == l1 && s[n..n + 3] == Separator && s[n + 3..] == leaf;
    forall i: nat | i < n
      ensures !OccursAt(s, Separator, i)
    {
      if i + 3 <= n {
        assert s[i..i + 3] == l1[i..i + 3];
        assert !OccursAt(l1, Separator, i);
      } else if i + 2 == n {
        assert s[i..i + 3][..2] == l1[n - 2..] != " >";
      } else {
        assert s[i + 1] == ' ' != Separator[1];
      }
    }
    assert OccursAt(s, Separator, n);
    assert IndexOf(s, Separator) == n;
    assert Split(s, Separator) == [s[..n]] + Split(s[n + 3..], Separator);
  }

  /** The top-level (L1) category of a path: its first segment. */
  function L1Of(path: string): string {
    Segments(path)[0]
  }

  /** The L1 of a path is the whole path when it has no separator, else the text before the first one. */
  lemma L1OfShape(path: string)
    ensures !Contains(path, Separator) ==> L1Of(path) == path
    ensures Contains(path, Separator) ==> L1Of(path) == path[..IndexOf(path, Separator)]
  {
  }

  /** The second-level category of a path, or its L1 when it has one level. */
  function L2Of(path: string): string {
    var parts := Segments(path);
    if |parts| > 1 then parts[1] else parts[0]
  }

  /** The leaf name of a path: its last segment. */
  function LeafOf(path: string): string {
    Last(Segments(path))
  }

  /** The leaf name ends the path and holds no separator. */
  lemma LeafOfShape(path: string)
    ensures EndsWith(path, LeafOf(path))
    ensures !Contains(LeafOf(path), Separator)
  {
    SplitLastIsSuffix(path, Separator);
    SegmentsShape(path);
  }

  // ---------------------------------------------------------------------
  // The leaf scan of `_build_taxonomy_tree`.

  /** The lines after the header line. */
  function Body(lines: seq<string>): (r: seq<string>)
    ensures |lines| > 0 ==> |r| == |lines| - 1 && forall j :: 0 <= j < |r| ==> r[j] == lines[j + 1]
    ensures |lines| == 0 ==> r == []
  {
    if |lines| == 0 then [] else lines[1..]
  }

  /** `other` (already stripped) names a child of the category path `line`. */
  predicate ChildLine(line: string, other: string) {
    other != "" && StartsWith(other, line + Separator)
  }

  /** Line `j` of the body, stripped, names a child of `line`. */
  predicate IsChildAt(body: seq<string>, j: int, line: string)
    requires 0 <= j < |body|
  {
    ChildLine(line, Strip(body[j]))
  }

  /** Some body line after position `i` names a child of `line`. */
  predicate HasLaterChild(body: seq<string>, i: nat, line: string) {
    exists j :: i < j < |body| && IsChildAt(body, j, line)
  }

  /**
   * The inner loop of the scan: looks through the body lines after `i` for a
   * child of `line`, stopping at the first one.
   */
  method FindLaterChild(body: seq<string>, i: nat, line: string) returns (found: bool)
    ensures found == HasLaterChild(body, i, line)
  {
    found := false;
    var j := i + 1;
    while j < |body|
      invariant i + 1 <= j
      invariant !found
      invariant forall k :: i < k < j && k < |body| ==> !IsChildAt(body, k, line)
      decreases |body| - j
    {
      var subsequent := Strip(body[j]);
      if subsequent != "" && StartsWith(subsequent, line + Separator) {
        assert IsChildAt(body, j, line);
        found := true;
        return;
      }
      j := j + 1;
    }
  }

  /** Whether the body line `i`, stripped, is kept as a path. */
  predicate Kept(body: seq<string>, i: int)
    requires 0 <= i < |body|
  {
    Strip(body[i]) != ""
  }

  /** The paths kept from the first `n` body lines, in file order. */
  function KeptPaths(body: seq<string>, n: nat): seq<string>
    requires n <= |body|
  {
    if n == 0 then []
    else KeptPaths(body, n - 1) + (if Kept(body, n - 1) then [Strip(body[n - 1])] else [])
  }

  /** The leaf markers of the paths kept from the first `n` body lines. */
  function KeptMarkers(body: seq<string>, n: nat): seq<bool>
    requires n <= |body|
  {
    if n == 0 then []
    else
      var line := Strip(body[n - 1]);
      KeptMarkers(body, n - 1) + (if Kept(body, n - 1) then [!HasLaterChild(body, n - 1, line)] else [])
  }

  /** The body positions of the kept lines among the first `n`. */
  function KeptIndices(body: seq<string>, n: nat): (idx: seq<nat>)
    requires n <= |body|
    ensures |idx| <= n
    ensures forall k :: 0 <= k < |idx| ==> idx[k] < n
  {
    if n == 0 then []
    else KeptIndices(body, n - 1) + (if Kept(body, n - 1) then [n - 1] else [])
  }

  /** The paths `_build_taxonomy_tree` stores in `all_paths`. */
  function ScanPaths(lines: seq<string>): seq<string> {
    KeptPaths(Body(lines), |Body(lines)|)
  }

  /** The markers `_build_taxonomy_tree` stores in `leaf_markers`. */
  function ScanMarkers(lines: seq<string>): seq<bool> {
    KeptMarkers(Body(lines), |Body(lines)|)
  }

  /**
   * The kept positions are exactly the non-blank lines among the first `n`,
   * in increasing order.
   */
  lemma {:induction false} KeptIndicesExact(body: seq<string>, n: nat)
    requires n <= |body|
    ensures forall k :: 0 <= k < |KeptIndices(body, n)| ==>
      KeptIndices(body, n)[k] < n && Kept(body, KeptIndices(body, n)[k])
    ensures forall a, b :: 0 <= a < b < |KeptIndices(body, n)| ==>
      KeptIndices(body, n)[a] < KeptIndices(body, n)[b]
    ensures forall j :: 0 <= j < n && Kept(body, j) ==> j in KeptIndices(body, n)
  {
    if n > 0 {
      KeptIndicesExact(body, n - 1);
    }
  }

  /** No line after the last kept one is kept. */
  lemma {:induction false} NothingKeptAfterLast(body: seq<string>, n: nat)
    requires n <= |body| && |KeptIndices(body, n)| > 0
    ensures forall j :: Last(KeptIndices(body, n)) < j < n ==> !Kept(body, j)
  {
    var prev := KeptIndices(body, n - 1);
    if !Kept(body, n - 1) {
      NothingKeptAfterLast(body, n - 1);
    }
  }

  /** There is one kept path and one marker per kept line. */
  lemma {:induction false} KeptLengths(body: seq<string>, n: nat)
    requires n <= |body|
    ensures |KeptPaths(body, n)| == |KeptMarkers(body, n)| == |KeptIndices(body, n)|
  {
    if n > 0 {
      KeptLengths(body, n - 1);
    }
  }

  /** The kept paths are the kept lines, stripped, in file order. */
  lemma {:induction false} KeptPathsAreLines(body: seq<string>, n: nat)
    requires n <= |body|
    ensures |KeptPaths(body, n)| == |KeptIndices(body, n)|
    ensures forall k :: 0 <= k < |KeptIndices(body, n)| ==>
      KeptPaths(body, n)[k] == Strip(body[KeptIndices(body, n)[k]])
  {
    KeptLengths(body, n);
    KeptIndicesExact(body, n);
    if n > 0 {
      KeptPathsAreLines(body, n - 1);
    }
  }

  /** Each kept path is marked a leaf exactly when no later line names a child of it. */
  lemma {:induction false} KeptMarkersAreLeaves(body: seq<string>, n: nat)
    requires n <= |body|
    ensures |KeptMarkers(body, n)| == |KeptIndices(body, n)|
    ensures forall k :: 0 <= k < |KeptIndices(body, n)| ==>
      (KeptMarkers(body, n)[k] <==>
       !HasLaterChild(body, KeptIndices(body, n)[k], Strip(body[KeptIndices(body, n)[k]])))
  {
    KeptLengths(body, n);
    KeptIndicesExact(body, n);
    if n > 0 {
      KeptMarkersAreLeaves(body, n - 1);
    }
  }

  /** Every kept path is a non-blank stripped line. */
  lemma {:induction false} KeptPathsStripped(body: seq<string>, n: nat)
    requires n <= |body|
    ensures forall k :: 0 <= k < |KeptPaths(body, n)| ==>
      KeptPaths(body, n)[k] != "" && Strip(KeptPaths(body, n)[k]) == KeptPaths(body, n)[k]
  {
    if n > 0 {
      KeptPathsStripped(body, n - 1);
      StripIdempotent(body[n - 1]);
    }
  }

  /** `all_paths` and `leaf_markers` always have the same length. */
  lemma ScanLengths(lines: seq<string>)
    ensures |ScanPaths(lines)| == |ScanMarkers(lines)|
  {
    KeptLengths(Body(lines), |Body(lines)|);
  }

  /** The last kept line is always a leaf: no line comes after it that could be its child. */
  lemma LastKeptIsLeaf(body: seq<string>)
    requires |KeptIndices(body, |body|)| > 0
    ensures |KeptMarkers(body, |body|)| > 0 && Last(KeptMarkers(body, |body|))
  {
    var n := |body|;
    KeptMarkersAreLeaves(body, n);
    NothingKeptAfterLast(body, n);
    var i := Last(KeptIndices(body, n));
    var line := Strip(body[i]);
    forall j | i < j < n
      ensures !IsChildAt(body, j, line)
    {
      assert !Kept(body, j);
    }
  }
}
