/**
 * The lookups the navigator derives from `all_paths` and `leaf_markers`: the
 * leaf paths and names, the L1 list, the leaf-name dictionaries, the Stage 2
 * candidate list and the final path lookup. Each is defined over the first `n`
 * entries, the way the source's loops build them.
 */
module Lookups {
  import opened Lists
  import opened Text
  import opened Taxonomy

  /** `all_paths` and `leaf_markers` go together entry by entry. */
  predicate Aligned(paths: seq<string>, markers: seq<bool>) {
    |paths| == |markers|
  }

  /** What a leaf-derived list or dictionary records about a leaf path. */
  datatype Field = FullPath | L1 | L2 | LeafName

  function FieldOf(field: Field, path: string): string {
    match field
    case FullPath => path
    case L1 => L1Of(path)
    case L2 => L2Of(path)
    case LeafName => LeafOf(path)
  }

  /** `field` of every path marked a leaf among the first `n`, in file order. */
  function LeafFields(paths: seq<string>, markers: seq<bool>, field: Field, n: nat): seq<string>
    requires Aligned(paths, markers) && n <= |paths|
  {
    if n == 0 then []
    else
      LeafFields(paths, markers, field, n - 1)
        + (if markers[n - 1] then [FieldOf(field, paths[n - 1])] else [])
  }

  function LeafPaths(paths: seq<string>, markers: seq<bool>): seq<string>
    requires Aligned(paths, markers)
  {
    LeafFields(paths, markers, FullPath, |paths|)
  }

  function LeafNames(paths: seq<string>, markers: seq<bool>): seq<string>
    requires Aligned(paths, markers)
  {
    LeafFields(paths, markers, LeafName, |paths|)
  }

  /**
   * Every leaf-derived list lines up with the list of leaf paths: entry `k` is
   * the field of leaf path `k`, and every leaf path is listed.
   */
  lemma {:induction false} LeafFieldsOfLeafPaths(paths: seq<string>, markers: seq<bool>, field: Field, n: nat)
    requires Aligned(paths, markers) && n <= |paths|
    ensures |LeafFields(paths, markers, field, n)| == |LeafFields(paths, markers, FullPath, n)|
    ensures forall k :: 0 <= k < |LeafFields(paths, markers, field, n)| ==>
      LeafFields(paths, markers, field, n)[k] == FieldOf(field, LeafFields(paths, markers, FullPath, n)[k])
  {
    if n > 0 {
      LeafFieldsOfLeafPaths(paths, markers, field, n - 1);
    }
  }

  /** The leaf paths are exactly the paths marked as leaves. */
  lemma {:induction false} LeafPathsMembers(paths: seq<string>, markers: seq<bool>, n: nat)
    requires Aligned(paths, markers) && n <= |paths|
    ensures forall i :: 0 <= i < n && markers[i] ==> paths[i] in LeafFields(paths, markers, FullPath, n)
    ensures forall p :: p in LeafFields(paths, markers, FullPath, n) ==>
      exists i :: 0 <= i < n && markers[i] && paths[i] == p
  {
    if n > 0 {
      LeafPathsMembers(paths, markers, n - 1);
    }
  }

  /** The L1 categories of the leaf paths, without repeats, in first-seen order. */
  function L1List(paths: seq<string>, markers: seq<bool>): seq<string>
    requires Aligned(paths, markers)
  {
    Dedup(LeafFields(paths, markers, L1, |paths|))
  }

  /** One step of the loop collecting the L1 list: a new L1 is appended, a known one skipped. */
  lemma L1ListStep(paths: seq<string>, markers: seq<bool>, i: nat, l1s: seq<string>)
    requires Aligned(paths, markers) && i < |paths|
    requires l1s == Dedup(LeafFields(paths, markers, L1, i))
    ensures Dedup(LeafFields(paths, markers, L1, i + 1)) ==
      if markers[i] && L1Of(paths[i]) !in l1s then l1s + [L1Of(paths[i])] else l1s
  {
    var fields := LeafFields(paths, markers, L1, i);
    if markers[i] {
      assert LeafFields(paths, markers, L1, i + 1) == fields + [L1Of(paths[i])];
      DedupSnoc(fields, L1Of(paths[i]));
    } else {
      assert LeafFields(paths, markers, L1, i + 1) == fields;
    }
  }

  /** The L1 list holds the L1 of every leaf path, and nothing else, once each. */
  lemma L1ListMembers(paths: seq<string>, markers: seq<bool>)
    requires Aligned(paths, markers)
    ensures NoDuplicates(L1List(paths, markers))
    ensures forall i :: 0 <= i < |paths| && markers[i] ==> L1Of(paths[i]) in L1List(paths, markers)
    ensures forall c :: c in L1List(paths, markers) ==>
      exists i :: 0 <= i < |paths| && markers[i] && L1Of(paths[i]) == c
  {
    var n := |paths|;
    var l1s := LeafFields(paths, markers, L1, n);
    var lp := LeafFields(paths, markers, FullPath, n);
    LeafFieldsOfLeafPaths(paths, markers, L1, n);
    LeafPathsMembers(paths, markers, n);
    DedupShape(l1s);
    forall i | 0 <= i < n && markers[i]
      ensures L1Of(paths[i]) in L1List(paths, markers)
    {
      var k :| 0 <= k < |lp| && lp[k] == paths[i];
      assert l1s[k] == L1Of(paths[i]);
    }
    forall c | c in L1List(paths, markers)
      ensures exists i :: 0 <= i < n && markers[i] && L1Of(paths[i]) == c
    {
      var k :| 0 <= k < |l1s| && l1s[k] == c;
      assert lp[k] in lp;
      var i :| 0 <= i < n && markers[i] && paths[i] == lp[k];
      assert L1Of(paths[i]) == c;
    }
  }

  // ---------------------------------------------------------------------
  // The leaf-name dictionaries of `_create_leaf_to_l1/_l2/_path_mapping`.

  /** `{leaf name: field}` over the first `n` entries; a later leaf with the same name overwrites. */
  function LeafMap(paths: seq<string>, markers: seq<bool>, field: Field, n: nat): map<string, string>
    requires Aligned(paths, markers) && n <= |paths|
  {
    if n == 0 then map[]
    else
      var m := LeafMap(paths, markers, field, n - 1);
      if markers[n - 1] then m[LeafOf(paths[n - 1]) := FieldOf(field, paths[n - 1])] else m
  }

  /** The dictionary has a key for exactly the leaf names. */
  lemma {:induction false} LeafMapKeys(paths: seq<string>, markers: seq<bool>, field: Field, n: nat)
    requires Aligned(paths, markers) && n <= |paths|
    ensures forall name :: name in LeafMap(paths, markers, field, n) <==>
      exists i :: 0 <= i < n && markers[i] && LeafOf(paths[i]) == name
  {
    if n > 0 {
      LeafMapKeys(paths, markers, field, n - 1);
      var m := LeafMap(paths, markers, field, n - 1);
      forall name | name in LeafMap(paths, markers, field, n)
        ensures exists i :: 0 <= i < n && markers[i] && LeafOf(paths[i]) == name
      {
        if name !in m {
          assert markers[n - 1] && LeafOf(paths[n - 1]) == name;
        }
      }
    }
  }

  /** No leaf path in positions `i + 1 .. n - 1` has the name of path `i`. */
  predicate LastWithName(paths: seq<string>, markers: seq<bool>, i: nat, n: nat)
    requires Aligned(paths, markers) && i < n <= |paths|
  {
    forall j :: i < j < n && markers[j] ==> LeafOf(paths[j]) != LeafOf(paths[i])
  }

  /** Each leaf name maps to the field of the last leaf path in file order with that name. */
  lemma {:induction false} LeafMapLastWins(paths: seq<string>, markers: seq<bool>, field: Field, n: nat, i: nat)
    requires Aligned(paths, markers) && i < n <= |paths|
    requires markers[i] && LastWithName(paths, markers, i, n)
    ensures LeafOf(paths[i]) in LeafMap(paths, markers, field, n)
    ensures LeafMap(paths, markers, field, n)[LeafOf(paths[i])] == FieldOf(field, paths[i])
  {
    if i < n - 1 {
      assert LastWithName(paths, markers, i, n - 1);
      LeafMapLastWins(paths, markers, field, n - 1, i);
    }
  }

  /** `_convert_leaves_to_paths`: the split path of each selected leaf the dictionary knows. */
  function ConvertLeaves(selected: seq<string>, leafToPath: map<string, string>): seq<seq<string>> {
    if |selected| == 0 then []
    else
      var leaf := Last(selected);
      ConvertLeaves(selected[..|selected| - 1], leafToPath)
        + (if leaf in leafToPath then [Segments(leafToPath[leaf])] else [])
  }

  /**
   * Leaves the dictionary does not know are skipped; every converted path is the
   * split form of a dictionary value for one of the selected leaves, and every
   * selected leaf the dictionary knows contributes its split path.
   */
  lemma {:induction false} ConvertLeavesMembers(selected: seq<string>, leafToPath: map<string, string>)
    ensures |ConvertLeaves(selected, leafToPath)| <= |selected|
    ensures (forall x :: x in selected ==> x !in leafToPath) ==> ConvertLeaves(selected, leafToPath) == []
    ensures forall p :: p in ConvertLeaves(selected, leafToPath) ==>
      exists x :: x in selected && x in leafToPath && p == Segments(leafToPath[x])
    ensures forall x :: x in selected && x in leafToPath ==>
      Segments(leafToPath[x]) in ConvertLeaves(selected, leafToPath)
  {
    if |selected| > 0 {
      var init := selected[..|selected| - 1];
      ConvertLeavesMembers(init, leafToPath);
      assert forall x :: x in selected <==> x in init || x == Last(selected);
      forall p | p in ConvertLeaves(selected, leafToPath)
        ensures exists x :: x in selected && x in leafToPath && p == Segments(leafToPath[x])
      {
        if p in ConvertLeaves(init, leafToPath) {
          var x :| x in init && x in leafToPath && p == Segments(leafToPath[x]);
          assert x in selected;
        } else {
          assert Last(selected) in selected;
        }
      }
    }
  }

  /** Converting a concatenation converts each part in turn: the order of the selection is kept. */
  lemma {:induction false} ConvertLeavesConcat(xs: seq<string>, ys: seq<string>, leafToPath: map<string, string>)
    ensures ConvertLeaves(xs + ys, leafToPath) == ConvertLeaves(xs, leafToPath) + ConvertLeaves(ys, leafToPath)
    decreases |ys|
  {
    if |ys| == 0 {
      assert xs + ys == xs;
    } else {
      var init := ys[..|ys| - 1];
      ConvertLeavesConcat(xs, init, leafToPath);
      assert (xs + ys)[..|xs + ys| - 1] == xs + init;
      assert Last(xs + ys) == Last(ys);
    }
  }

  /**
   * When the dictionary knows every selected leaf, the k-th path is the split
   * path of the k-th selected leaf.
   */
  lemma {:induction false} ConvertLeavesAllKnown(selected: seq<string>, leafToPath: map<string, string>)
    requires forall x :: x in selected ==> x in leafToPath
    ensures |ConvertLeaves(selected, leafToPath)| == |selected|
    ensures forall k :: 0 <= k < |selected| ==>
      ConvertLeaves(selected, leafToPath)[k] == Segments(leafToPath[selected[k]])
  {
    if |selected| > 0 {
      var init := selected[..|selected| - 1];
      ConvertLeavesAllKnown(init, leafToPath);
    }
  }

  // ---------------------------------------------------------------------
  // The Stage 2 candidate list of `_leaf_selection_helper`.

  /**
   * The leaf names of the first `n` leaf paths whose L1 is selected and whose
   * name is not excluded, in file order.
   */
  function Filtered(paths: seq<string>, markers: seq<bool>, selected: seq<string>, excluded: seq<string>, n: nat): seq<string>
    requires Aligned(paths, markers) && n <= |paths|
  {
    if n == 0 then []
    else
      var p := paths[n - 1];
      Filtered(paths, markers, selected, excluded, n - 1)
        + (if markers[n - 1] && L1Of(p) in selected && LeafOf(p) !in excluded then [LeafOf(p)] else [])
  }

  /** A candidate leaf of a selected L1 that was not excluded. */
  predicate Candidate(paths: seq<string>, markers: seq<bool>, selected: seq<string>, excluded: seq<string>, i: int)
    requires Aligned(paths, markers) && 0 <= i < |paths|
  {
    markers[i] && L1Of(paths[i]) in selected && LeafOf(paths[i]) !in excluded
  }

  /**
   * The candidates are exactly the names of the leaf paths under a selected L1
   * that are not excluded.
   */
  lemma {:induction false} FilteredMembers(paths: seq<string>, markers: seq<bool>, selected: seq<string>, excluded: seq<string>, n: nat)
    requires Aligned(paths, markers) && n <= |paths|
    ensures forall i :: 0 <= i < n && Candidate(paths, markers, selected, excluded, i) ==>
      LeafOf(paths[i]) in Filtered(paths, markers, selected, excluded, n)
    ensures forall x :: x in Filtered(paths, markers, selected, excluded, n) ==>
      exists i :: 0 <= i < n && Candidate(paths, markers, selected, excluded, i) && LeafOf(paths[i]) == x
  {
    if n > 0 {
      FilteredMembers(paths, markers, selected, excluded, n - 1);
      var prev := Filtered(paths, markers, selected, excluded, n - 1);
      var here := Filtered(paths, markers, selected, excluded, n);
      assert forall x :: x in prev ==> x in here;
      forall i | 0 <= i < n && Candidate(paths, markers, selected, excluded, i)
        ensures LeafOf(paths[i]) in here
      {
        if i == n - 1 {
          assert here == prev + [LeafOf(paths[i])];
        }
      }
      forall x | x in here
        ensures exists i :: 0 <= i < n && Candidate(paths, markers, selected, excluded, i) && LeafOf(paths[i]) == x
      {
        if x !in prev {
          assert Candidate(paths, markers, selected, excluded, n - 1) && LeafOf(paths[n - 1]) == x;
        }
      }
    }
  }

  /** There are never more candidates than leaf paths. */
  lemma {:induction false} FilteredBound(paths: seq<string>, markers: seq<bool>, selected: seq<string>, excluded: seq<string>, n: nat)
    requires Aligned(paths, markers) && n <= |paths|
    ensures |Filtered(paths, markers, selected, excluded, n)| <= |LeafFields(paths, markers, FullPath, n)|
  {
    if n > 0 {
      FilteredBound(paths, markers, selected, excluded, n - 1);
      var added := if markers[n - 1] then 1 else 0;
      assert |Filtered(paths, markers, selected, excluded, n)| <= |Filtered(paths, markers, selected, excluded, n - 1)| + added;
      assert |LeafFields(paths, markers, FullPath, n)| == |LeafFields(paths, markers, FullPath, n - 1)| + added;
    }
  }

  /** Nothing excluded is a candidate. */
  lemma {:induction false} FilteredAvoidsExcluded(paths: seq<string>, markers: seq<bool>, selected: seq<string>, excluded: seq<string>, n: nat)
    requires Aligned(paths, markers) && n <= |paths|
    ensures forall x :: x in Filtered(paths, markers, selected, excluded, n) ==> x !in excluded
  {
    if n > 0 {
      FilteredAvoidsExcluded(paths, markers, selected, excluded, n - 1);
    }
  }

  // ---------------------------------------------------------------------
  // The final path lookup of `navigate_taxonomy`.

  /** The test of the final lookup: a leaf path ending in `leaf` whose last segment is `leaf`. */
  predicate EndsInLeaf(path: string, marker: bool, leaf: string) {
    marker && EndsWith(path, leaf) && Last(Segments(path)) == leaf
  }

  /** The split form of every path among the first `n` that passes the test, in file order. */
  function PathsFor(paths: seq<string>, markers: seq<bool>, leaf: string, n: nat): seq<seq<string>>
    requires Aligned(paths, markers) && n <= |paths|
  {
    if n == 0 then []
    else
      PathsFor(paths, markers, leaf, n - 1)
        + (if EndsInLeaf(paths[n - 1], markers[n - 1], leaf) then [Segments(paths[n - 1])] else [])
  }

  /** The `endswith` test is implied by the last-segment test. */
  lemma EndsInLeafIsLeafName(path: string, marker: bool, leaf: string)
    ensures EndsInLeaf(path, marker, leaf) <==> marker && LeafOf(path) == leaf
  {
    LeafOfShape(path);
  }

  /** Path `i` is the first leaf path in file order named `leaf`. */
  predicate FirstWithName(paths: seq<string>, markers: seq<bool>, leaf: string, i: nat)
    requires Aligned(paths, markers) && i < |paths|
  {
    markers[i] && LeafOf(paths[i]) == leaf
    && forall j :: 0 <= j < i ==> !(markers[j] && LeafOf(paths[j]) == leaf)
  }

  /** Leaf path `j` has the name `leaf`, so there is a first one. */
  lemma FirstLeafWithName(paths: seq<string>, markers: seq<bool>, leaf: string, j: nat) returns (i: nat)
    requires Aligned(paths, markers) && j < |paths|
    requires markers[j] && LeafOf(paths[j]) == leaf
    ensures i <= j && FirstWithName(paths, markers, leaf, i)
  {
    i := 0;
    while !(markers[i] && LeafOf(paths[i]) == leaf)
      invariant i <= j
      invariant forall k :: 0 <= k < i ==> !(markers[k] && LeafOf(paths[k]) == leaf)
      decreases j - i
    {
      i := i + 1;
    }
  }

  /**
   * The lookup finds a path exactly when some leaf path has the name, and the
   * first one it finds is the split form of the first such path in file order.
   */
  lemma {:induction false} PathsForFirst(paths: seq<string>, markers: seq<bool>, leaf: string, n: nat)
    requires Aligned(paths, markers) && n <= |paths|
    ensures PathsFor(paths, markers, leaf, n) != [] <==>
      exists i :: 0 <= i < n && markers[i] && LeafOf(paths[i]) == leaf
    ensures forall i :: 0 <= i < n && FirstWithName(paths, markers, leaf, i) ==>
      PathsFor(paths, markers, leaf, n)[0] == Segments(paths[i])
  {
    if n > 0 {
      PathsForFirst(paths, markers, leaf, n - 1);
      EndsInLeafIsLeafName(paths[n - 1], markers[n - 1], leaf);
      var prev := PathsFor(paths, markers, leaf, n - 1);
      var here := PathsFor(paths, markers, leaf, n);
      assert here[..|prev|] == prev;
      forall i | 0 <= i < n && FirstWithName(paths, markers, leaf, i)
        ensures here[0] == Segments(paths[i])
      {
        if i == n - 1 {
          assert prev == [];
        }
      }
    }
  }
}
