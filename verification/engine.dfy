/**
 * The `TaxonomyNavigator` object: built once from the lines of the taxonomy
 * file, it keeps `all_paths`, `leaf_markers`, the nested tree and its AI
 * client, and answers `navigate_taxonomy` by chaining the stages. Every method
 * is proved to compute the function of the same name in `Navigator`,
 * `Lookups`, `L1Selection`, `LeafSelection` or `FinalSelection`, with the
 * replies still to come from the client (`client.Pending()`) as its input and
 * the calls it makes (the growth of `client.used`) stated outright.
 */
module Engine {
  import opened Lists
  import opened Text
  import opened Oracle
  import opened Taxonomy
  import opened Tree
  import opened Lookups
  import opened L1Selection
  import opened LeafSelection
  import opened FinalSelection
  import opened Navigator

  class TaxonomyNavigator {
    const allPaths: seq<string>
    const leafMarkers: seq<bool>
    const taxonomyTree: TaxonomyTree
    const client: Client

    /** One leaf marker per path. */
    predicate Valid() {
      Aligned(allPaths, leafMarkers)
    }

    /**
     * `__init__` with `_build_taxonomy_tree`: every non-blank line after the
     * header, stripped, becomes a path, marked a leaf when no later line names
     * a child of it, and is added to the tree.
     */
    constructor(lines: seq<string>, client: Client)
      ensures allPaths == ScanPaths(lines) && leafMarkers == ScanMarkers(lines)
      ensures Valid()
      ensures fresh(taxonomyTree) && taxonomyTree.nodes == TreeOf(allPaths, leafMarkers)
      ensures this.client == client
    {
      var body := Body(lines);
      var paths: seq<string> := [];
      var markers: seq<bool> := [];
      var tree := new TaxonomyTree();
      for i := 0 to |body|
        invariant paths == KeptPaths(body, i) && markers == KeptMarkers(body, i)
        invariant |paths| == |markers|
        invariant fresh(tree) && tree.nodes == TreeOf(paths, markers)
      {
        var line := Strip(body[i]);
        if line != "" {
          var hasChild := FindLaterChild(body, i, line);
          var isLeaf := !hasChild;
          tree.AddPath(line, isLeaf);
          var before, beforeMarkers := paths, markers;
          paths := paths + [line];
          markers := markers + [isLeaf];
          assert paths[..|paths| - 1] == before && markers[..|paths| - 1] == beforeMarkers;
        }
      }
      allPaths := paths;
      leafMarkers := markers;
      taxonomyTree := tree;
      this.client := client;
    }

    // -------------------------------------------------------------------
    // Lookups over the leaf paths.

    /** `_extract_leaf_nodes`: the leaf paths and their names, in file order. */
    method ExtractLeafNodes() returns (leafPaths: seq<string>, leafNames: seq<string>)
      requires Valid()
      ensures leafPaths == LeafPaths(allPaths, leafMarkers)
      ensures leafNames == LeafNames(allPaths, leafMarkers)
    {
      leafPaths, leafNames := [], [];
      for i := 0 to |allPaths|
        invariant leafPaths == LeafFields(allPaths, leafMarkers, FullPath, i)
        invariant leafNames == LeafFields(allPaths, leafMarkers, LeafName, i)
      {
        if leafMarkers[i] {
          leafPaths := leafPaths + [allPaths[i]];
          leafNames := leafNames + [LeafOf(allPaths[i])];
        }
      }
    }

    /** The loop of Stage 1 collecting the L1 of every leaf path once. */
    method ExtractL1Categories() returns (l1s: seq<string>)
      requires Valid()
      ensures l1s == L1List(allPaths, leafMarkers)
    {
      l1s := [];
      for i := 0 to |allPaths|
        invariant l1s == Dedup(LeafFields(allPaths, leafMarkers, L1, i))
      {
        L1ListStep(allPaths, leafMarkers, i, l1s);
        if leafMarkers[i] {
          var c := L1Of(allPaths[i]);
          if c !in l1s {
            l1s := l1s + [c];
          }
        }
      }
    }

    /** The loop shared by the three `_create_leaf_to_..._mapping` methods. */
    method LeafMapping(field: Field) returns (m: map<string, string>)
      requires Valid()
      ensures m == LeafMap(allPaths, leafMarkers, field, |allPaths|)
    {
      m := map[];
      for i := 0 to |allPaths|
        invariant m == LeafMap(allPaths, leafMarkers, field, i)
      {
        if leafMarkers[i] {
          m := m[LeafOf(allPaths[i]) := FieldOf(field, allPaths[i])];
        }
      }
    }

    /** `_create_leaf_to_l1_mapping`: each leaf name to the L1 of its last leaf path. */
    method CreateLeafToL1Mapping() returns (m: map<string, string>)
      requires Valid()
      ensures m == LeafMap(allPaths, leafMarkers, L1, |allPaths|)
    {
      m := LeafMapping(L1);
    }

    /** `_create_leaf_to_l2_mapping`: each leaf name to the L2 of its last leaf path. */
    method CreateLeafToL2Mapping() returns (m: map<string, string>)
      requires Valid()
      ensures m == LeafMap(allPaths, leafMarkers, L2, |allPaths|)
    {
      m := LeafMapping(L2);
    }

    /** `_create_leaf_to_path_mapping`: each leaf name to its last leaf path. */
    method CreateLeafToPathMapping() returns (m: map<string, string>)
      requires Valid()
      ensures m == LeafMap(allPaths, leafMarkers, FullPath, |allPaths|)
    {
      m := LeafMapping(FullPath);
    }

    /** `_convert_leaves_to_paths`: the split path of each selected leaf that has one. */
    method ConvertLeavesToPaths(selected: seq<string>) returns (finalPaths: seq<seq<string>>)
      requires Valid()
      ensures finalPaths == ConvertLeaves(selected, LeafMap(allPaths, leafMarkers, FullPath, |allPaths|))
    {
      var leafToPath := CreateLeafToPathMapping();
      finalPaths := [];
      for k := 0 to |selected|
        invariant finalPaths == ConvertLeaves(selected[..k], leafToPath)
      {
        assert selected[..k + 1][..k] == selected[..k];
        var leaf := selected[k];
        if leaf in leafToPath {
          finalPaths := finalPaths + [Segments(leafToPath[leaf])];
        }
      }
      assert selected[..|selected|] == selected;
    }

    // -------------------------------------------------------------------
    // The stages. Prompts are not modelled; each call takes the next reply.

    /** `generate_product_summary`: one call. */
    method GenerateProductSummary(productInfo: string) returns (summary: string)
      modifies client
      ensures summary == ProductSummary(productInfo, Next(old(client.Pending())))
      ensures client.used == old(client.used) + 1
    {
      var reply := client.Complete();
      if reply.Content? {
        summary := Strip(reply.text);
      } else if |productInfo| > SummaryLimit {
        summary := productInfo[..SummaryLimit] + "...";
      } else {
        summary := productInfo;
      }
    }

    /**
     * `stage1_l1_selection`: no call and no category when the taxonomy has no
     * leaf; otherwise one call, answered as `Stage1Result` says.
     */
    method Stage1L1Selection() returns (selected: seq<string>)
      requires Valid()
      modifies client
      ensures var p := Stage1Of(allPaths, leafMarkers, old(client.Pending()));
        selected == p.names
        && client.used == old(client.used) + p.calls
    {
      var l1s := ExtractL1Categories();
      if l1s == [] {
        return [];
      }
      var reply := client.Complete();
      if !reply.Content? {
        selected := l1s[..Min(2, |l1s|)];
        return;
      }
      var answers := ReplyLines(reply.text);
      var known: seq<string> := [];
      for k := 0 to |answers|
        invariant known == KnownOnly(answers[..k], l1s)
      {
        assert answers[..k + 1][..k] == answers[..k];
        if answers[k] in l1s {
          known := known + [answers[k]];
        }
      }
      assert answers[..|answers|] == answers;
      var unique := RemoveCaseDuplicates(known);
      unique := unique[..Min(2, |unique|)];
      selected := ValidateCategories(unique, l1s);
    }

    /** The candidate loop of `_leaf_selection_helper`. */
    method CandidateLeaves(selectedL1s: seq<string>, excluded: seq<string>) returns (filtered: seq<string>)
      requires Valid()
      ensures filtered == Filtered(allPaths, leafMarkers, selectedL1s, excluded, |allPaths|)
    {
      filtered := [];
      for i := 0 to |allPaths|
        invariant filtered == Filtered(allPaths, leafMarkers, selectedL1s, excluded, i)
      {
        if leafMarkers[i] {
          var leaf := LeafOf(allPaths[i]);
          if L1Of(allPaths[i]) in selectedL1s && leaf !in excluded {
            filtered := filtered + [leaf];
          }
        }
      }
    }

    /** The batch loop of `_leaf_selection_helper`: one call per batch of 100. */
    method CollectBatchPicks(candidates: seq<string>) returns (collected: seq<string>)
      modifies client
      ensures collected == CollectedPicks(candidates, old(client.Pending()), BatchCount(|candidates|))
      ensures client.used == old(client.used) + BatchCount(|candidates|)
    {
      ghost var rs := client.Pending();
      collected := [];
      for b := 0 to BatchCount(|candidates|)
        invariant collected == CollectedPicks(candidates, rs, b)
        invariant client.used == old(client.used) + b
      {
        var batch := Batch(candidates, b);
        DropDrop(client.script, old(client.used), b);
        var reply := client.Complete();
        if reply.Content? {
          var picks := PicksOfReply(reply.text, batch);
          collected := collected + picks;
        }
      }
    }

    /**
     * `_leaf_selection_helper`: the candidates are the leaves of the selected
     * L1s not excluded; one call per batch of 100, the picks of all batches
     * de-duplicated.
     */
    method LeafSelectionHelper(selectedL1s: seq<string>, excluded: seq<string>) returns (leaves: seq<string>)
      requires Valid()
      modifies client
      ensures var candidates := Filtered(allPaths, leafMarkers, selectedL1s, excluded, |allPaths|);
        leaves == SelectedLeaves(candidates, old(client.Pending()))
        && client.used == old(client.used) + BatchCount(|candidates|)
    {
      var filtered := CandidateLeaves(selectedL1s, excluded);
      if filtered == [] {
        leaves := [];
        return;
      }
      var collected := CollectBatchPicks(filtered);
      leaves := RemoveDuplicates(collected);
    }

    /** `stage2a_first_leaf_selection`: the leaves chosen under the first selected L1. */
    method Stage2AFirstLeafSelection(selectedL1s: seq<string>) returns (leaves: seq<string>)
      requires Valid()
      modifies client
      ensures var p := Stage2A(allPaths, leafMarkers, selectedL1s, old(client.Pending()));
        leaves == p.names
        && client.used == old(client.used) + p.calls
    {
      if selectedL1s == [] {
        return [];
      }
      leaves := LeafSelectionHelper([selectedL1s[0]], []);
    }

    /**
     * `stage2b_second_leaf_selection`: the leaves chosen under the second
     * selected L1, leaving out those already chosen.
     */
    method Stage2BSecondLeafSelection(selectedL1s: seq<string>, excluded: seq<string>) returns (leaves: seq<string>)
      requires Valid()
      modifies client
      ensures var p := Stage2B(allPaths, leafMarkers, selectedL1s, excluded, old(client.Pending()));
        leaves == p.names
        && client.used == old(client.used) + p.calls
    {
      if |selectedL1s| < 2 {
        return [];
      }
      leaves := LeafSelectionHelper([selectedL1s[1]], excluded);
    }

    /** `stage3_final_selection`: a call only when there are two candidates or more. */
    method Stage3FinalSelection(selectedLeaves: seq<string>) returns (index: int)
      modifies client
      ensures index == FinalIndex(selectedLeaves, Next(old(client.Pending())))
      ensures var calls := if Stage3Calls(selectedLeaves) then 1 else 0;
        client.used == old(client.used) + calls
    {
      if |selectedLeaves| == 0 {
        return -1;
      }
      if |selectedLeaves| == 1 {
        return 0;
      }
      var reply := client.Complete();
      match reply
      case CallFailed =>
        index := -1;
      case NoContent =>
        index := ParseAndValidateNumber(None, |selectedLeaves|);
      case Content(text) =>
        index := ParseAndValidateNumber(Some(text), |selectedLeaves|);
    }

    /** The loop of `navigate_taxonomy` finding the split paths of the chosen leaf. */
    method FullPathsFor(leaf: string) returns (found: seq<seq<string>>)
      requires Valid()
      ensures found == PathsFor(allPaths, leafMarkers, leaf, |allPaths|)
    {
      found := [];
      for i := 0 to |allPaths|
        invariant found == PathsFor(allPaths, leafMarkers, leaf, i)
      {
        if leafMarkers[i] && EndsWith(allPaths[i], leaf) {
          var parts := Segments(allPaths[i]);
          if Last(parts) == leaf {
            found := found + [parts];
          }
        }
      }
    }

    /** Stages 2A and 2B of `navigate_taxonomy`, 2B only when Stage 1 chose two L1s. */
    method SelectLeaves(selectedL1s: seq<string>) returns (all: seq<string>)
      requires Valid()
      modifies client
      ensures var leaves := Stage2Of(allPaths, leafMarkers, selectedL1s, old(client.Pending()));
        all == leaves.first + leaves.second
        && client.used == old(client.used) + leaves.calls
    {
      ghost var rs := client.Pending();
      ghost var used := client.used;
      var first := Stage2AFirstLeafSelection(selectedL1s);
      ghost var a := Stage2A(allPaths, leafMarkers, selectedL1s, rs);
      ghost var mid := client.used;
      var second: seq<string> := [];
      if |selectedL1s| >= 2 {
        DropDrop(client.script, used, a.calls);
        second := Stage2BSecondLeafSelection(selectedL1s, first);
      }
      ghost var b := Stage2B(allPaths, leafMarkers, selectedL1s, first, Drop(rs, a.calls));
      assert second == b.names && client.used == mid + b.calls;
      Stage2OfCompose(allPaths, leafMarkers, selectedL1s, rs, a, b);
      all := first + second;
    }

    /**
     * Stage 3 (skipped for a single leaf) and the lookup of the chosen leaf's
     * path in `navigate_taxonomy`.
     */
    method FinishNavigation(all: seq<string>) returns (paths: seq<seq<string>>, best: int)
      requires Valid() && |all| > 0
      modifies client
      ensures var run := Conclude(allPaths, leafMarkers, all, old(client.Pending()));
        Outcome(paths, best) == OutcomeOf(run.verdict)
        && client.used == old(client.used) + run.calls
    {
      var index := 0;
      if |all| == 1 {
      } else {
        index := Stage3FinalSelection(all);
        if index < 0 {
          return [["False"]], 0;
        }
      }
      var found := FullPathsFor(all[index]);
      if found == [] {
        return [["False"]], 0;
      }
      return [found[0]], 0;
    }

    /** `navigate_taxonomy` from Stage 2 on. */
    method NavigateFromStage2(selectedL1s: seq<string>) returns (paths: seq<seq<string>>, best: int)
      requires Valid()
      modifies client
      ensures var run := FromStage2(allPaths, leafMarkers, selectedL1s, old(client.Pending()));
        Outcome(paths, best) == OutcomeOf(run.verdict)
        && client.used == old(client.used) + run.calls
    {
      ghost var rs := client.Pending();
      ghost var used := client.used;
      var all := SelectLeaves(selectedL1s);
      ghost var leaves := Stage2Of(allPaths, leafMarkers, selectedL1s, rs);
      FromStage2Compose(allPaths, leafMarkers, selectedL1s, rs, leaves);
      if all == [] {
        return [["False"]], 0;
      }
      DropDrop(client.script, used, leaves.calls);
      paths, best := FinishNavigation(all);
    }

    /**
     * `navigate_taxonomy`: the summary, Stage 1, Stages 2A and 2B, Stage 3 and
     * the path lookup, answering `([["False"]], 0)` when a stage fails.
     */
    method NavigateTaxonomy(productInfo: string) returns (paths: seq<seq<string>>, best: int)
      requires Valid()
      modifies client
      ensures var run := Navigate(allPaths, leafMarkers, old(client.Pending()));
        Outcome(paths, best) == OutcomeOf(run.verdict)
        && client.used == old(client.used) + run.calls
    {
      ghost var rs := client.Pending();
      var summary := GenerateProductSummary(productInfo);
      DropDrop(client.script, old(client.used), 1);
      ghost var stage1 := Stage1Of(allPaths, leafMarkers, Drop(rs, 1));
      var selected := Stage1L1Selection();
      if selected == [] {
        return [["False"]], 0;
      }
      DropDrop(client.script, old(client.used), 1 + stage1.calls);
      paths, best := NavigateFromStage2(selected);
    }
  }
}
