/**
 * The batch tester's logic for one product: the title shown for a product
 * line (`extract_product_title`) and the leaf name that
 * `classify_product_with_stage_display` returns, in quiet mode from the
 * result of `navigate_taxonomy` and in verbose mode from the stages called
 * one by one. Both copies of the tester share this logic.
 */
module BatchTester {
  import opened Lists
  import opened Text
  import opened Oracle
  import opened Taxonomy
  import opened Lookups
  import opened FinalSelection
  import opened Navigator

  // ---------------------------------------------------------------------
  // The product title.

  /** The text before the first `:` of the line, stripped, or the whole line stripped. */
  function ExtractProductTitle(line: string): (title: string)
    ensures ':' !in line ==> title == Strip(line)
  {
    if ':' in line then Strip(Split(line, ":")[0]) else Strip(line)
  }

  /** With a colon at `i` and none before it, the title is the text before `i`, stripped. */
  lemma TitleBeforeFirstColon(line: string, i: nat)
    requires i < |line| && line[i] == ':' && ':' !in line[..i]
    ensures ExtractProductTitle(line) == Strip(line[..i])
  {
    OccursAtChar(line, ':', i);
    var k := IndexOf(line, ":");
    assert k >= 0;
    OccursAtChar(line, ':', k);
  }

  /**
   * The title holds no colon and no surrounding whitespace, so taking the
   * title of a title changes nothing.
   */
  lemma TitleShape(line: string)
    ensures ':' !in ExtractProductTitle(line)
    ensures Strip(ExtractProductTitle(line)) == ExtractProductTitle(line)
    ensures ExtractProductTitle(ExtractProductTitle(line)) == ExtractProductTitle(line)
  {
    var before := if ':' in line then Split(line, ":")[0] else line;
    if ':' in line {
      ContainsChar(line, ':');
      var k := IndexOf(line, ":");
      PrefixBeforeFirstIsFree(line, ":", k);
      ContainsChar(line[..k], ':');
    }
    StripKeepsAbsent(before, ':');
    StripIdempotent(before);
  }

  /** A title without colon or surrounding whitespace is what a line starting with it and a colon gives. */
  lemma TitleOfLine(title: string, rest: string)
    requires ':' !in title && Strip(title) == title
    ensures ExtractProductTitle(title + ":" + rest) == title
  {
    var line := title + ":" + rest;
    assert line[..|title|] == title;
    TitleBeforeFirstColon(line, |title|);
  }

  /** The title of the documented example line. */
  lemma TitleExample()
    ensures ExtractProductTitle("iPhone 14 Pro: Smartphone with camera") == "iPhone 14 Pro"
  {
    var title := "iPhone 14 Pro";
    StripUnchanged(title);
    assert "iPhone 14 Pro: Smartphone with camera" == title + ":" + " Smartphone with camera";
    TitleOfLine(title, " Smartphone with camera");
  }

  // ---------------------------------------------------------------------
  // The leaf name returned.

  /** The message of the `IndexError` raised by indexing a list past its end. */
  const IndexErrorMessage: string := "list index out of range"

  /** The answer when classification raises: `Error: `, the message cut to 30 characters, `...`. */
  function ErrorAnswer(message: string): (r: string)
    ensures StartsWith(r, "Error: ") && EndsWith(r, "...")
    ensures |r| <= 40
  {
    "Error: " + Take(message, 30) + "..."
  }

  /**
   * Quiet mode: `False` for the failure sentinel, otherwise the last segment
   * of the best path, or `False` when that path is empty; an index outside
   * the list raises, which the tester answers with an error text.
   */
  function LeafOfOutcome(o: Outcome): string {
    if o.paths == [["False"]] then "False"
    else if !(-|o.paths| <= o.best < |o.paths|) then ErrorAnswer(IndexErrorMessage)
    else
      var best := o.paths[if o.best < 0 then o.best + |o.paths| else o.best];
      if best == [] then "False" else Last(best)
  }

  /** A path found is answered by its last segment, even when that is `False`. */
  lemma AnswerOfFound(v: Verdict)
    requires v.Found? && |v.path| > 0
    ensures LeafOfOutcome(OutcomeOf(v)) == Last(v.path)
  {
    if [v.path] == [["False"]] {
      assert v.path == ["False"];
    }
  }

  /** Quiet mode for a whole run of `navigate_taxonomy` on the replies `rs`. */
  function ClassifyQuiet(paths: seq<string>, markers: seq<bool>, rs: seq<Reply>): string
    requires Aligned(paths, markers)
  {
    LeafOfOutcome(OutcomeOf(Navigate(paths, markers, rs).verdict))
  }

  /**
   * Quiet mode never answers with an error: it answers `False` when the run
   * fails, and otherwise the Stage 2 leaf at the index the run chose, which is
   * the name of the first leaf path with that name, under an L1 category
   * Stage 1 selected.
   */
  lemma QuietAnswer(paths: seq<string>, markers: seq<bool>, rs: seq<Reply>)
    requires Aligned(paths, markers)
    ensures var run := Navigate(paths, markers, rs);
      var selected := Stage1Of(paths, markers, Drop(rs, 1)).names;
      (run.verdict.Failed? ==> ClassifyQuiet(paths, markers, rs) == "False")
      && (run.verdict.Found? ==>
        var leaves := Stage2Of(paths, markers, selected, Drop(rs, 2));
        var all := leaves.first + leaves.second;
        all != []
        && var index := ChosenIndex(all, Drop(rs, 2 + leaves.calls));
        0 <= index
        && ClassifyQuiet(paths, markers, rs) == all[index]
        && exists i :: 0 <= i < |paths| && FirstWithName(paths, markers, LeafOf(paths[i]), i)
             && LeafOf(paths[i]) == all[index]
             && LeafUnder(paths, markers, selected, LeafOf(paths[i]))
             && ClassifyQuiet(paths, markers, rs) == LeafOf(paths[i]))
  {
    NavigateShape(paths, markers, rs);
    var run := Navigate(paths, markers, rs);
    if run.verdict.Found? {
      var selected := Stage1Of(paths, markers, Drop(rs, 1)).names;
      var leaves := Stage2Of(paths, markers, selected, Drop(rs, 2));
      var all := leaves.first + leaves.second;
      var index := ChosenIndex(all, Drop(rs, 2 + leaves.calls));
      var i :| 0 <= i < |paths| && LeafOf(paths[i]) == all[index] && run.verdict.path == Segments(paths[i]);
      AnswerOfFound(run.verdict);
      assert ClassifyQuiet(paths, markers, rs) == LeafOf(paths[i]);
    }
  }

  /**
   * Verbose mode from Stage 2 on: `False` without leaves, the one leaf without
   * asking Stage 3, else the leaf Stage 3 chooses or `False` when it fails.
   */
  function VerboseFromStage2(paths: seq<string>, markers: seq<bool>, selected: seq<string>, rs: seq<Reply>): string
    requires Aligned(paths, markers)
  {
    var leaves := Stage2Of(paths, markers, selected, rs);
    var all := leaves.first + leaves.second;
    if all == [] then "False"
    else if |all| == 1 then all[0]
    else
      var index := FinalIndex(all, Next(Drop(rs, leaves.calls)));
      if index >= 0 then all[index] else "False"
  }

  /**
   * Verbose mode as written: when Stage 1 selects nothing, Stage 2A returns
   * nothing and the message about it indexes the empty Stage 1 list, which
   * raises `IndexError`.
   */
  function ClassifyVerboseAsWritten(paths: seq<string>, markers: seq<bool>, rs: seq<Reply>): string
    requires Aligned(paths, markers)
  {
    var stage1 := Stage1Of(paths, markers, Drop(rs, 1));
    var rest := Drop(rs, 1 + stage1.calls);
    var first := Stage2A(paths, markers, stage1.names, rest);
    if first.names == [] && stage1.names == [] then ErrorAnswer(IndexErrorMessage)
    else VerboseFromStage2(paths, markers, stage1.names, rest)
  }

  /** Verbose mode with the message guarded as the Stage 2A heading already is. */
  function ClassifyVerbose(paths: seq<string>, markers: seq<bool>, rs: seq<Reply>): string
    requires Aligned(paths, markers)
  {
    var stage1 := Stage1Of(paths, markers, Drop(rs, 1));
    VerboseFromStage2(paths, markers, stage1.names, Drop(rs, 1 + stage1.calls))
  }

  /**
   * As written, verbose mode answers with an error exactly when Stage 1
   * selects nothing, and otherwise as the guarded version does.
   */
  lemma VerboseAsWrittenFailsOnEmptyStage1(paths: seq<string>, markers: seq<bool>, rs: seq<Reply>)
    requires Aligned(paths, markers)
    ensures ClassifyVerboseAsWritten(paths, markers, rs) ==
      if Stage1Of(paths, markers, Drop(rs, 1)).names == [] then ErrorAnswer(IndexErrorMessage)
      else ClassifyVerbose(paths, markers, rs)
  {
  }

  /**
   * With an empty taxonomy, quiet mode answers `False` while verbose mode as
   * written answers with the error text.
   */
  lemma VerboseAsWrittenCounterexample()
    ensures ClassifyVerboseAsWritten([], [], []) == "Error: list index out of range..."
    ensures ClassifyQuiet([], [], []) == "False"
  {
    assert L1List([], []) == [];
    assert Stage1Of([], [], Drop([], 1)).names == [];
    assert Navigate([], [], []).verdict == Failed;
    assert Take(IndexErrorMessage, 30) == IndexErrorMessage;
  }

  /** The lookup of a leaf selected under some L1 finds a path, and that path ends in the leaf. */
  lemma LookupEndsInLeaf(paths: seq<string>, markers: seq<bool>, selected: seq<string>, leaf: string)
    requires Aligned(paths, markers) && LeafUnder(paths, markers, selected, leaf)
    ensures PathsFor(paths, markers, leaf, |paths|) != []
    ensures |PathsFor(paths, markers, leaf, |paths|)[0]| > 0 && Last(PathsFor(paths, markers, leaf, |paths|)[0]) == leaf
  {
    var j :| 0 <= j < |paths| && markers[j] && L1Of(paths[j]) in selected && LeafOf(paths[j]) == leaf;
    var i := FirstLeafWithName(paths, markers, leaf, j);
    PathsForFirst(paths, markers, leaf, |paths|);
  }

  /**
   * From Stage 2 on, the lookup of the chosen leaf always finds a path ending
   * in that leaf, so quiet mode answers what verbose mode does.
   */
  lemma FromStage2Agrees(paths: seq<string>, markers: seq<bool>, selected: seq<string>, rs: seq<Reply>)
    requires Aligned(paths, markers)
    ensures LeafOfOutcome(OutcomeOf(FromStage2(paths, markers, selected, rs).verdict))
      == VerboseFromStage2(paths, markers, selected, rs)
  {
    var leaves := Stage2Of(paths, markers, selected, rs);
    var all := leaves.first + leaves.second;
    Stage2Shape(paths, markers, selected, rs);
    if all != [] {
      var index := ChosenIndex(all, Drop(rs, leaves.calls));
      if index >= 0 {
        assert all[index] in all;
        LookupEndsInLeaf(paths, markers, selected, all[index]);
        var path := PathsFor(paths, markers, all[index], |paths|)[0];
        assert FromStage2(paths, markers, selected, rs).verdict == Found(path);
        assert LeafOfOutcome(Outcome([path], 0)) == Last(path) by {
          if [path] == [["False"]] {
            assert path == ["False"];
          }
        }
      }
    }
  }

  /** The guarded verbose mode and quiet mode answer the same for every taxonomy and replies. */
  lemma VerboseAgreesWithQuiet(paths: seq<string>, markers: seq<bool>, rs: seq<Reply>)
    requires Aligned(paths, markers)
    ensures ClassifyVerbose(paths, markers, rs) == ClassifyQuiet(paths, markers, rs)
  {
    var stage1 := Stage1Of(paths, markers, Drop(rs, 1));
    var rest := Drop(rs, 1 + stage1.calls);
    Stage2Shape(paths, markers, stage1.names, rest);
    FromStage2Agrees(paths, markers, stage1.names, rest);
  }

  /**
   * Verbose mode answers `False` exactly when Stage 2 selects no leaf or
   * Stage 3 fails, and otherwise one of the leaves Stage 2 selected.
   */
  lemma VerboseAnswer(paths: seq<string>, markers: seq<bool>, selected: seq<string>, rs: seq<Reply>)
    requires Aligned(paths, markers)
    ensures var leaves := Stage2Of(paths, markers, selected, rs);
      var all := leaves.first + leaves.second;
      var r := VerboseFromStage2(paths, markers, selected, rs);
      (all == [] ==> r == "False")
      && (|all| == 1 ==> r == all[0])
      && (Stage3Calls(all) && FinalIndex(all, Next(Drop(rs, leaves.calls))) < 0 ==> r == "False")
      && (r != "False" ==> r in all)
  {
  }
}
