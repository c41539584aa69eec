/**
 * `TaxonomyNavigator`: the taxonomy scan at construction, the lookups, the
 * stages, and `navigate_taxonomy`, which chains them and answers
 * `([["False"]], 0)` whenever a stage leaves nothing to go on.
 *
 * The AI client is the scripted `Client`; each stage's reply is the next one
 * in its script, so the whole run is a function of the taxonomy and the
 * replies (`Navigate`), and the class's methods are proved to compute it.
 */
module Navigator {
  import opened Lists
  import opened Text
  import opened Oracle
  import opened Taxonomy
  import opened Tree
  import opened Lookups
  import opened L1Selection
  import opened LeafSelection
  import opened FinalSelection

  /** How a run ends: in failure, or with the split path of the chosen leaf. */
  datatype Verdict = Failed | Found(path: seq<string>)

  /** The paths found and the index of the best one, as `navigate_taxonomy` returns them. */
  datatype Outcome = Outcome(paths: seq<seq<string>>, best: int)

  /** `([["False"]], 0)` for a failure, `(full_paths[:1], 0)` for a path found. */
  function OutcomeOf(v: Verdict): (r: Outcome)
    ensures r.best == 0 && |r.paths| == 1
    ensures v.Found? ==> r.paths[0] == v.path
    ensures v.Failed? ==> r.paths[0] == ["False"]
  {
    match v
    case Failed => Outcome([["False"]], 0)
    case Found(path) => Outcome([path], 0)
  }

  /** A verdict and the number of AI calls made to reach it. */
  datatype Run = Run(verdict: Verdict, calls: nat)

  /** The categories or leaves one stage returns and the calls it makes. */
  datatype Picks = Picks(names: seq<string>, calls: nat)

  /** The leaves Stage 2A and Stage 2B return, and the calls they make together. */
  datatype Leaves = Leaves(first: seq<string>, second: seq<string>, calls: nat)

  /**
   * `stage1_l1_selection`: no call and nothing selected when the taxonomy has
   * no leaf, otherwise one call answered as `Stage1Result` says.
   */
  function Stage1Of(paths: seq<string>, markers: seq<bool>, rs: seq<Reply>): Picks
    requires Aligned(paths, markers)
  {
    var l1s := L1List(paths, markers);
    if l1s == [] then Picks([], 0) else Picks(Stage1Result(l1s, Next(rs)), 1)
  }

  /**
   * `_leaf_selection_helper` for one L1: the leaves of `l1` not excluded are
   * the candidates, and each batch of them costs one call.
   */
  function LeafStage(paths: seq<string>, markers: seq<bool>, l1: string, excluded: seq<string>, rs: seq<Reply>): Picks
    requires Aligned(paths, markers)
  {
    var candidates := Filtered(paths, markers, [l1], excluded, |paths|);
    Picks(SelectedLeaves(candidates, rs), BatchCount(|candidates|))
  }

  /** `stage2a_first_leaf_selection`: nothing without a selected L1, else the first one's leaves. */
  function Stage2A(paths: seq<string>, markers: seq<bool>, selected: seq<string>, rs: seq<Reply>): Picks
    requires Aligned(paths, markers)
  {
    if selected == [] then Picks([], 0) else LeafStage(paths, markers, selected[0], [], rs)
  }

  /** `stage2b_second_leaf_selection`: nothing without a second L1, else its leaves not excluded. */
  function Stage2B(paths: seq<string>, markers: seq<bool>, selected: seq<string>, excluded: seq<string>, rs: seq<Reply>): Picks
    requires Aligned(paths, markers)
  {
    if |selected| < 2 then Picks([], 0) else LeafStage(paths, markers, selected[1], excluded, rs)
  }

  /**
   * Stage 2A over the leaves of the first selected L1, then Stage 2B over the
   * leaves of the second minus those 2A chose, with the replies left after 2A.
   */
  function Stage2Of(paths: seq<string>, markers: seq<bool>, selected: seq<string>, rs: seq<Reply>): Leaves
    requires Aligned(paths, markers)
  {
    var a := Stage2A(paths, markers, selected, rs);
    var b := Stage2B(paths, markers, selected, a.names, Drop(rs, a.calls));
    Leaves(a.names, b.names, a.calls + b.calls)
  }

  /** Stage 2 is Stage 2A followed by Stage 2B on the replies 2A left. */
  lemma Stage2OfCompose(paths: seq<string>, markers: seq<bool>, selected: seq<string>, rs: seq<Reply>, a: Picks, b: Picks)
    requires Aligned(paths, markers)
    requires a == Stage2A(paths, markers, selected, rs)
    requires b == Stage2B(paths, markers, selected, a.names, Drop(rs, a.calls))
    ensures Stage2Of(paths, markers, selected, rs) == Leaves(a.names, b.names, a.calls + b.calls)
  {
  }

  /**
   * Stage 3 (skipped for a single leaf) and the lookup of the chosen leaf's
   * path: the first leaf path, in file order, whose last segment is the leaf.
   */
  function Conclude(paths: seq<string>, markers: seq<bool>, all: seq<string>, rs: seq<Reply>): Run
    requires Aligned(paths, markers) && |all| > 0
  {
    var index := ChosenIndex(all, rs);
    var calls := if |all| == 1 then 0 else 1;
    if index < 0 then Run(Failed, calls)
    else
      var found := PathsFor(paths, markers, all[index], |paths|);
      if found == [] then Run(Failed, calls) else Run(Found(found[0]), calls)
  }

  /**
   * The position in `all` of the leaf the run settles on: the only one, or the
   * one Stage 3 picks from the next reply (-1 when Stage 3 fails).
   */
  function ChosenIndex(all: seq<string>, rs: seq<Reply>): (r: int)
    requires |all| > 0
    ensures -1 <= r < |all|
    ensures |all| == 1 ==> r == 0
    ensures |all| > 1 ==> r == FinalIndex(all, Next(rs))
  {
    if |all| == 1 then 0 else FinalIndex(all, Next(rs))
  }

  /**
   * `navigate_taxonomy` from Stage 2 on, for the L1 categories Stage 1
   * selected: fails when Stage 2 selects no leaf, else Stage 3 and the lookup.
   */
  function FromStage2(paths: seq<string>, markers: seq<bool>, selected: seq<string>, rs: seq<Reply>): Run
    requires Aligned(paths, markers)
  {
    var leaves := Stage2Of(paths, markers, selected, rs);
    var all := leaves.first + leaves.second;
    if all == [] then Run(Failed, leaves.calls)
    else
      var last := Conclude(paths, markers, all, Drop(rs, leaves.calls));
      Run(last.verdict, leaves.calls + last.calls)
  }

  /** From Stage 2 on, in terms of the Stage 2 leaves and, when there are some, Stage 3 and the lookup. */
  lemma FromStage2Compose(paths: seq<string>, markers: seq<bool>, selected: seq<string>, rs: seq<Reply>, leaves: Leaves)
    requires Aligned(paths, markers)
    requires leaves == Stage2Of(paths, markers, selected, rs)
    ensures leaves.first + leaves.second == [] ==>
      FromStage2(paths, markers, selected, rs) == Run(Failed, leaves.calls)
    ensures leaves.first + leaves.second != [] ==>
      var last := Conclude(paths, markers, leaves.first + leaves.second, Drop(rs, leaves.calls));
      FromStage2(paths, markers, selected, rs) == Run(last.verdict, leaves.calls + last.calls)
  {
  }

  /**
   * `navigate_taxonomy` when `rs` are the replies still to come: the summary
   * takes the first, then each stage the next ones in turn; the run fails
   * at once when Stage 1 selects nothing.
   */
  function Navigate(paths: seq<string>, markers: seq<bool>, rs: seq<Reply>): Run
    requires Aligned(paths, markers)
  {
    var stage1 := Stage1Of(paths, markers, Drop(rs, 1));
    if stage1.names == [] then Run(Failed, 1 + stage1.calls)
    else
      var rest := FromStage2(paths, markers, stage1.names, Drop(rs, 1 + stage1.calls));
      Run(rest.verdict, 1 + stage1.calls + rest.calls)
  }

  // ---------------------------------------------------------------------
  // Properties of the pipeline.

  /** `x` is the name of a leaf path whose L1 is one of `selected`. */
  predicate LeafUnder(paths: seq<string>, markers: seq<bool>, selected: seq<string>, x: string)
    requires Aligned(paths, markers)
  {
    exists i :: 0 <= i < |paths| && markers[i] && L1Of(paths[i]) in selected && LeafOf(paths[i]) == x
  }

  /** One Stage 2 step returns only leaves of its L1, each once and none excluded. */
  lemma LeafStageShape(paths: seq<string>, markers: seq<bool>, l1: string, excluded: seq<string>, rs: seq<Reply>, selected: seq<string>)
    requires Aligned(paths, markers) && l1 in selected
    ensures NoDuplicates(LeafStage(paths, markers, l1, excluded, rs).names)
    ensures forall x :: x in LeafStage(paths, markers, l1, excluded, rs).names ==>
      LeafUnder(paths, markers, selected, x) && x !in excluded
  {
    var candidates := Filtered(paths, markers, [l1], excluded, |paths|);
    SelectedLeavesShape(candidates, rs);
    FilteredMembers(paths, markers, [l1], excluded, |paths|);
    FilteredAvoidsExcluded(paths, markers, [l1], excluded, |paths|);
  }

  /**
   * Stage 2 returns no leaf twice, 2B none that 2A returned, and only names of
   * leaf paths under the L1 categories Stage 1 selected.
   */
  lemma Stage2Shape(paths: seq<string>, markers: seq<bool>, selected: seq<string>, rs: seq<Reply>)
    requires Aligned(paths, markers)
    ensures var leaves := Stage2Of(paths, markers, selected, rs);
      NoDuplicates(leaves.first + leaves.second)
      && (forall x :: x in leaves.second ==> x !in leaves.first)
      && (forall x :: x in leaves.first + leaves.second ==> LeafUnder(paths, markers, selected, x))
      && (|selected| < 2 ==> leaves.second == [])
      && (selected == [] ==> leaves == Leaves([], [], 0))
  {
    var a := Stage2A(paths, markers, selected, rs);
    if selected != [] {
      LeafStageShape(paths, markers, selected[0], [], rs, selected);
      if |selected| >= 2 {
        LeafStageShape(paths, markers, selected[1], a.names, Drop(rs, a.calls), selected);
      }
    }
    var b := Stage2B(paths, markers, selected, a.names, Drop(rs, a.calls));
    NoDuplicatesConcat(a.names, b.names);
  }

  /**
   * Stage 3 is asked only for two or more leaves, and the run then fails only
   * when Stage 3 fails: when every leaf is the name of some leaf path, the
   * lookup always finds one, and the path found is that of the first leaf path
   * in file order named after the leaf at the chosen index.
   */
  lemma ConcludeFindsPath(paths: seq<string>, markers: seq<bool>, all: seq<string>, rs: seq<Reply>)
    requires Aligned(paths, markers) && |all| > 0
    requires forall x :: x in all ==> exists i :: 0 <= i < |paths| && markers[i] && LeafOf(paths[i]) == x
    ensures Conclude(paths, markers, all, rs).calls == (if Stage3Calls(all) then 1 else 0)
    ensures Conclude(paths, markers, all, rs).verdict.Failed? <==>
      Stage3Calls(all) && FinalIndex(all, Next(rs)) < 0
    ensures Conclude(paths, markers, all, rs).verdict.Found? ==>
      0 <= ChosenIndex(all, rs)
      && exists i :: 0 <= i < |paths| && LeafOf(paths[i]) == all[ChosenIndex(all, rs)]
           && FirstWithName(paths, markers, LeafOf(paths[i]), i)
           && Conclude(paths, markers, all, rs).verdict.path == Segments(paths[i])
  {
    var index := ChosenIndex(all, rs);
    if index >= 0 {
      var leaf := all[index];
      assert leaf in all;
      PathsForFirst(paths, markers, leaf, |paths|);
      var j :| 0 <= j < |paths| && markers[j] && LeafOf(paths[j]) == leaf;
      var i := FirstLeafWithName(paths, markers, leaf, j);
      assert LeafOf(paths[i]) == leaf;
    }
  }

  /** `BatchCount` grows with the number of candidates. */
  lemma BatchCountMonotone(a: nat, b: nat)
    requires a <= b
    ensures BatchCount(a) <= BatchCount(b)
  {
  }

  /**
   * From Stage 2 on, the run fails exactly when no leaf is selected or Stage 3
   * fails; the final lookup never fails, and a path found is that of the first
   * leaf path named after the Stage 2 leaf at the chosen index, a leaf under
   * one of the L1 categories.
   */
  lemma FromStage2Shape(paths: seq<string>, markers: seq<bool>, selected: seq<string>, rs: seq<Reply>)
    requires Aligned(paths, markers)
    ensures var run := FromStage2(paths, markers, selected, rs);
      var leaves := Stage2Of(paths, markers, selected, rs);
      var all := leaves.first + leaves.second;
      (run.verdict.Failed? <==>
        all == [] || (Stage3Calls(all) && FinalIndex(all, Next(Drop(rs, leaves.calls))) < 0))
      && (run.verdict.Found? ==>
        all != []
        && var index := ChosenIndex(all, Drop(rs, leaves.calls));
        0 <= index
        && exists i :: 0 <= i < |paths| && FirstWithName(paths, markers, LeafOf(paths[i]), i)
             && LeafOf(paths[i]) == all[index]
             && LeafUnder(paths, markers, selected, LeafOf(paths[i]))
             && run.verdict.path == Segments(paths[i]))
  {
    var leaves := Stage2Of(paths, markers, selected, rs);
    var all := leaves.first + leaves.second;
    Stage2Shape(paths, markers, selected, rs);
    if all != [] {
      forall x | x in all
        ensures exists i :: 0 <= i < |paths| && markers[i] && LeafOf(paths[i]) == x
      {
        assert LeafUnder(paths, markers, selected, x);
      }
      ConcludeFindsPath(paths, markers, all, Drop(rs, leaves.calls));
    }
  }

  /**
   * The run fails only where a stage leaves nothing to go on: no L1 category
   * in the taxonomy, none selected, no leaf selected, or Stage 3 failing. The
   * final lookup never fails, and a path found is that of the first leaf path
   * named after the Stage 2 leaf at the chosen index, a leaf under an L1 that
   * Stage 1 selected.
   */
  lemma NavigateShape(paths: seq<string>, markers: seq<bool>, rs: seq<Reply>)
    requires Aligned(paths, markers)
    ensures var run := Navigate(paths, markers, rs);
      var selected := Stage1Of(paths, markers, Drop(rs, 1)).names;
      (L1List(paths, markers) == [] ==> selected == [])
      && (run.verdict.Failed? <==>
        selected == []
        || (var leaves := Stage2Of(paths, markers, selected, Drop(rs, 2));
            var all := leaves.first + leaves.second;
            all == [] || (Stage3Calls(all) && FinalIndex(all, Next(Drop(rs, 2 + leaves.calls))) < 0)))
      && (run.verdict.Found? ==>
        var leaves := Stage2Of(paths, markers, selected, Drop(rs, 2));
        var all := leaves.first + leaves.second;
        all != []
        && var index := ChosenIndex(all, Drop(rs, 2 + leaves.calls));
        0 <= index
        && exists i :: 0 <= i < |paths| && FirstWithName(paths, markers, LeafOf(paths[i]), i)
             && LeafOf(paths[i]) == all[index]
             && LeafUnder(paths, markers, selected, LeafOf(paths[i]))
             && run.verdict.path == Segments(paths[i]))
  {
    var selected := Stage1Of(paths, markers, Drop(rs, 1)).names;
    if selected != [] {
      var leaves := Stage2Of(paths, markers, selected, Drop(rs, 2));
      FromStage2Shape(paths, markers, selected, Drop(rs, 2));
      DropDrop(rs, 2, leaves.calls);
    }
  }

  /**
   * A run makes one call for the summary, one for Stage 1 when the taxonomy
   * has a leaf, one per batch of 100 candidates in Stages 2A and 2B, and at
   * most one for Stage 3: never more than three plus two per batch of leaves.
   */
  lemma NavigateCalls(paths: seq<string>, markers: seq<bool>, rs: seq<Reply>)
    requires Aligned(paths, markers)
    ensures L1List(paths, markers) == [] ==> Navigate(paths, markers, rs).calls == 1
    ensures Navigate(paths, markers, rs).calls <= 3 + 2 * BatchCount(|LeafPaths(paths, markers)|)
  {
    var leafCount := |LeafPaths(paths, markers)|;
    var selected := Stage1Of(paths, markers, Drop(rs, 1)).names;
    if selected != [] {
      var rs2 := Drop(rs, 2);
      FilteredBound(paths, markers, [selected[0]], [], |paths|);
      BatchCountMonotone(|Filtered(paths, markers, [selected[0]], [], |paths|)|, leafCount);
      if |selected| >= 2 {
        var a := Stage2A(paths, markers, selected, rs2);
        FilteredBound(paths, markers, [selected[1]], a.names, |paths|);
        BatchCountMonotone(|Filtered(paths, markers, [selected[1]], a.names, |paths|)|, leafCount);
      }
    }
  }

  /**
   * The lookup goes by leaf name alone: in a taxonomy holding `a > x` and then
   * `b > x`, the leaf `x` is a leaf of `b`, so Stage 2 may choose it under `b`,
   * yet the path found for it is `a > x`, under the other L1 category.
   */
  lemma LookupByNameOnly(a: string, b: string, x: string)
    requires a != b
    requires !Contains(a, Separator) && !EndsWith(a, " >")
    requires !Contains(b, Separator) && !EndsWith(b, " >")
    requires !Contains(x, Separator)
    ensures var paths := [a + Separator + x, b + Separator + x];
      LeafUnder(paths, [true, true], [b], x)
      && |PathsFor(paths, [true, true], x, 2)| > 0
      && PathsFor(paths, [true, true], x, 2)[0] == [a, x]
      && PathsFor(paths, [true, true], x, 2)[0][0] != b
  {
    SegmentsOfTwoLevels(a, x);
    SegmentsOfTwoLevels(b, x);
    var paths, markers := [a + Separator + x, b + Separator + x], [true, true];
    assert markers[1] && L1Of(paths[1]) in [b] && LeafOf(paths[1]) == x;
    assert FirstWithName(paths, markers, x, 0);
    PathsForFirst(paths, markers, x, 2);
  }

  /** A one-letter name holds no separator and cannot end in `" >"`. */
  lemma OneLetterName(c: char)
    ensures !Contains([c], Separator) && !EndsWith([c], " >")
  {
  }

  /** The two paths of the example, spelt with the separator. */
  lemma ExamplePaths()
    ensures "A" + Separator + "X" == "A > X" && "B" + Separator + "X" == "B > X"
  {
  }

  /**
   * When Stage 2 chose `X` under `B`, the path found is still `A > X`, the
   * first path in file order with that leaf name.
   */
  lemma LookupIgnoresL1()
    ensures |PathsFor(["A > X", "B > X"], [true, true], "X", 2)| > 0
    ensures PathsFor(["A > X", "B > X"], [true, true], "X", 2)[0] == ["A", "X"]
    ensures L1Of("B > X") == "B"
  {
    OneLetterName('A');
    OneLetterName('B');
    OneLetterName('X');
    ExamplePaths();
    SegmentsOfTwoLevels("B", "X");
    LookupByNameOnly("A", "B", "X");
  }
}
