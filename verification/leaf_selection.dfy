/**
 * Stage 2 of `_leaf_selection_helper`: the candidate leaves go to the AI in
 * batches of 100, every number in a reply that names a position of the batch
 * picks that leaf, and the picks of all batches are de-duplicated.
 */
module LeafSelection {
  import opened Lists
  import opened Text
  import opened Oracle

  /** At most this many candidates are numbered in one prompt. */
  const BatchSize: nat := 100

  /** `range(0, n, 100)` has this many steps. */
  function BatchCount(n: nat): (r: nat)
    ensures r * BatchSize >= n
    ensures n > 0 ==> (r - 1) * BatchSize < n
    ensures n == 0 <==> r == 0
  {
    (n + BatchSize - 1) / BatchSize
  }

  /** `filtered_leaves[batch_start:batch_end]` for batch number `b`. */
  function Batch(xs: seq<string>, b: nat): (r: seq<string>)
    requires b < BatchCount(|xs|)
    ensures 1 <= |r| <= BatchSize
    ensures forall k :: 0 <= k < |r| ==> b * BatchSize + k < |xs| && r[k] == xs[b * BatchSize + k]
  {
    xs[b * BatchSize..Min(b * BatchSize + BatchSize, |xs|)]
  }

  /** Every candidate is in exactly one batch, at its position within that batch. */
  lemma BatchesCover(xs: seq<string>, i: nat)
    requires i < |xs|
    ensures i / BatchSize < BatchCount(|xs|)
    ensures i % BatchSize < |Batch(xs, i / BatchSize)|
    ensures Batch(xs, i / BatchSize)[i % BatchSize] == xs[i]
  {
    var b := i / BatchSize;
    assert b * BatchSize + i % BatchSize == i;
  }

  // ---------------------------------------------------------------------
  // The picks in one reply.

  /** The leaves that the numbers on one line name: numbers 1 to `|batch|` only. */
  function NumberPicks(nums: seq<nat>, batch: seq<string>): seq<string> {
    if |nums| == 0 then []
    else
      var num := Last(nums);
      NumberPicks(nums[..|nums| - 1], batch) + (if 1 <= num <= |batch| then [batch[num - 1]] else [])
  }

  /** The leaves picked by every line, in order. */
  function LinesPicks(lines: seq<string>, batch: seq<string>): seq<string> {
    if |lines| == 0 then []
    else LinesPicks(lines[..|lines| - 1], batch) + NumberPicks(DigitRuns(Last(lines)), batch)
  }

  /** The picks in a reply's text: none when it is `NONE` in any case. */
  function ReplyPicks(text: string, batch: seq<string>): seq<string> {
    var content := Strip(text);
    if Upper(content) == "NONE" then [] else LinesPicks(ReplyLines(content), batch)
  }

  /** A batch whose call raised or whose reply had no content picks nothing. */
  function BatchPicks(reply: Reply, batch: seq<string>): seq<string> {
    match reply
    case Content(text) => ReplyPicks(text, batch)
    case _ => []
  }

  /** Some number of `nums` is the 1-based position of `x` in the batch. */
  predicate Numbered(nums: seq<nat>, batch: seq<string>, x: string) {
    exists num :: num in nums && 1 <= num <= |batch| && batch[num - 1] == x
  }

  /**
   * `x` is picked by the reply: it has content that is not `NONE`, and a number
   * on one of its lines is the position of `x` in the batch.
   */
  predicate PickedBy(reply: Reply, batch: seq<string>, x: string) {
    reply.Content? && Upper(Strip(reply.text)) != "NONE"
    && exists line :: line in ReplyLines(Strip(reply.text)) && Numbered(DigitRuns(line), batch, x)
  }

  /**
   * A leaf is picked exactly when one of the numbers is its position in the
   * batch, so nothing outside the batch is picked.
   */
  lemma {:induction false} NumberPicksMembers(nums: seq<nat>, batch: seq<string>)
    ensures forall x :: x in NumberPicks(nums, batch) <==> Numbered(nums, batch, x)
    ensures forall x :: x in NumberPicks(nums, batch) ==> x in batch
  {
    if |nums| > 0 {
      var init, last := nums[..|nums| - 1], Last(nums);
      NumberPicksMembers(init, batch);
      var picks := NumberPicks(nums, batch);
      assert picks == NumberPicks(init, batch) + (if 1 <= last <= |batch| then [batch[last - 1]] else []);
      forall x | x in picks
        ensures Numbered(nums, batch, x)
      {
        if x in NumberPicks(init, batch) {
          var num :| num in init && 1 <= num <= |batch| && batch[num - 1] == x;
          assert num in nums;
        } else {
          assert last in nums;
        }
      }
      forall x | Numbered(nums, batch, x)
        ensures x in picks
      {
        var num :| num in nums && 1 <= num <= |batch| && batch[num - 1] == x;
        if num != last {
          assert num in init by {
            var k :| 0 <= k < |nums| && nums[k] == num;
            assert init[k] == num;
          }
        }
      }
    }
  }

  /** A leaf is picked by the lines exactly when the numbers of one line name it. */
  lemma {:induction false} LinesPicksMembers(lines: seq<string>, batch: seq<string>)
    ensures forall x :: x in LinesPicks(lines, batch) <==>
      exists line :: line in lines && Numbered(DigitRuns(line), batch, x)
    ensures forall x :: x in LinesPicks(lines, batch) ==> x in batch
  {
    if |lines| > 0 {
      var init, last := lines[..|lines| - 1], Last(lines);
      LinesPicksMembers(init, batch);
      NumberPicksMembers(DigitRuns(last), batch);
      var picks := LinesPicks(lines, batch);
      assert picks == LinesPicks(init, batch) + NumberPicks(DigitRuns(last), batch);
      forall x | x in picks
        ensures exists line :: line in lines && Numbered(DigitRuns(line), batch, x)
      {
        if x in LinesPicks(init, batch) {
          var line :| line in init && Numbered(DigitRuns(line), batch, x);
          assert line in lines;
        } else {
          assert last in lines;
        }
      }
      forall x | exists line :: line in lines && Numbered(DigitRuns(line), batch, x)
        ensures x in picks
      {
        var line :| line in lines && Numbered(DigitRuns(line), batch, x);
        if line != last {
          assert line in init by {
            var k :| 0 <= k < |lines| && lines[k] == line;
            assert init[k] == line;
          }
        }
      }
    }
  }

  /** The picks of one batch are exactly the leaves its reply picks. */
  lemma BatchPicksMembers(reply: Reply, batch: seq<string>)
    ensures forall x :: x in BatchPicks(reply, batch) <==> PickedBy(reply, batch, x)
  {
    if reply.Content? {
      LinesPicksMembers(ReplyLines(Strip(reply.text)), batch);
    }
  }

  /** A reply picks only leaves of its own batch. */
  lemma BatchPicksInBatch(reply: Reply, batch: seq<string>)
    ensures forall x :: x in BatchPicks(reply, batch) ==> x in batch
  {
    if reply.Content? {
      var content := Strip(reply.text);
      LinesPicksMembers(ReplyLines(content), batch);
    }
  }

  /** The loop over the numbers found on one line. */
  method PicksOfLine(line: string, batch: seq<string>) returns (picks: seq<string>)
    ensures picks == NumberPicks(DigitRuns(line), batch)
  {
    var numbers := DigitRuns(line);
    picks := [];
    for j := 0 to |numbers|
      invariant picks == NumberPicks(numbers[..j], batch)
    {
      assert numbers[..j + 1][..j] == numbers[..j];
      var num := numbers[j];
      if 1 <= num <= |batch| {
        picks := picks + [batch[num - 1]];
      }
    }
    assert numbers[..|numbers|] == numbers;
  }

  /** The loop over the lines of a reply, collecting the leaves each line picks. */
  method PicksOfReply(text: string, batch: seq<string>) returns (picks: seq<string>)
    ensures picks == ReplyPicks(text, batch)
  {
    var content := Strip(text);
    picks := [];
    if Upper(content) != "NONE" {
      var lines := ReplyLines(content);
      for i := 0 to |lines|
        invariant picks == LinesPicks(lines[..i], batch)
      {
        assert lines[..i + 1][..i] == lines[..i];
        var linePicks := PicksOfLine(lines[i], batch);
        picks := picks + linePicks;
      }
      assert lines[..|lines|] == lines;
    }
  }

  // ---------------------------------------------------------------------
  // All batches.

  /**
   * The picks of the first `k` batches when `rs` are the replies still to come;
   * batch `b` is answered by the `b`-th of them.
   */
  function CollectedPicks(candidates: seq<string>, rs: seq<Reply>, k: nat): seq<string>
    requires k <= BatchCount(|candidates|)
  {
    if k == 0 then []
    else CollectedPicks(candidates, rs, k - 1) + BatchPicks(Next(Drop(rs, k - 1)), Batch(candidates, k - 1))
  }

  lemma {:induction false} CollectedPicksAreCandidates(candidates: seq<string>, rs: seq<Reply>, k: nat)
    requires k <= BatchCount(|candidates|)
    ensures forall x :: x in CollectedPicks(candidates, rs, k) ==> x in candidates
  {
    if k > 0 {
      CollectedPicksAreCandidates(candidates, rs, k - 1);
      var batch := Batch(candidates, k - 1);
      BatchPicksInBatch(Next(Drop(rs, k - 1)), batch);
      forall x | x in batch
        ensures x in candidates
      {
        var j :| 0 <= j < |batch| && batch[j] == x;
        assert candidates[(k - 1) * BatchSize + j] == x;
      }
    }
  }

  /** The leaves Stage 2 returns for a candidate list, after one call per batch. */
  function SelectedLeaves(candidates: seq<string>, rs: seq<Reply>): seq<string> {
    Dedup(CollectedPicks(candidates, rs, BatchCount(|candidates|)))
  }

  /**
   * Stage 2 returns candidates only, each at most once, and nothing at all when
   * there are no candidates.
   */
  lemma SelectedLeavesShape(candidates: seq<string>, rs: seq<Reply>)
    ensures NoDuplicates(SelectedLeaves(candidates, rs))
    ensures forall x :: x in SelectedLeaves(candidates, rs) ==> x in candidates
    ensures candidates == [] ==> SelectedLeaves(candidates, rs) == []
  {
    CollectedPicksAreCandidates(candidates, rs, BatchCount(|candidates|));
    DedupShape(CollectedPicks(candidates, rs, BatchCount(|candidates|)));
  }

  /**
   * The picks of the first `k` batches are exactly the leaves picked by the
   * reply to one of them; a failed batch adds nothing and the others still count.
   */
  lemma {:induction false} CollectedPicksMembers(candidates: seq<string>, rs: seq<Reply>, k: nat)
    requires k <= BatchCount(|candidates|)
    ensures forall x :: x in CollectedPicks(candidates, rs, k) <==>
      exists b :: 0 <= b < k && PickedBy(Next(Drop(rs, b)), Batch(candidates, b), x)
  {
    if k > 0 {
      CollectedPicksMembers(candidates, rs, k - 1);
      var batch := Batch(candidates, k - 1);
      BatchPicksMembers(Next(Drop(rs, k - 1)), batch);
      var before := CollectedPicks(candidates, rs, k - 1);
      assert CollectedPicks(candidates, rs, k) == before + BatchPicks(Next(Drop(rs, k - 1)), batch);
      forall x | exists b :: 0 <= b < k && PickedBy(Next(Drop(rs, b)), Batch(candidates, b), x)
        ensures x in CollectedPicks(candidates, rs, k)
      {
        var b :| 0 <= b < k && PickedBy(Next(Drop(rs, b)), Batch(candidates, b), x);
        if b < k - 1 {
          assert x in before;
        }
      }
    }
  }

  /**
   * Stage 2 returns exactly the leaves that the reply to some batch picks,
   * whatever the other batches' replies were.
   */
  lemma SelectedLeavesMembers(candidates: seq<string>, rs: seq<Reply>)
    ensures forall x :: x in SelectedLeaves(candidates, rs) <==>
      exists b :: 0 <= b < BatchCount(|candidates|) && PickedBy(Next(Drop(rs, b)), Batch(candidates, b), x)
  {
    CollectedPicksMembers(candidates, rs, BatchCount(|candidates|));
    DedupShape(CollectedPicks(candidates, rs, BatchCount(|candidates|)));
  }

  /**
   * A number `d` on a line of the `b`-th reply, when that reply is not `NONE`,
   * selects the `d`-th leaf of batch `b`.
   */
  lemma NumberOnReplySelects(candidates: seq<string>, rs: seq<Reply>, b: nat, text: string, line: string, d: nat)
    requires b < BatchCount(|candidates|)
    requires Next(Drop(rs, b)) == Content(text) && Upper(Strip(text)) != "NONE"
    requires line in ReplyLines(Strip(text)) && d in DigitRuns(line)
    requires 1 <= d <= |Batch(candidates, b)|
    ensures Batch(candidates, b)[d - 1] in SelectedLeaves(candidates, rs)
  {
    var x := Batch(candidates, b)[d - 1];
    assert Numbered(DigitRuns(line), Batch(candidates, b), x);
    assert PickedBy(Next(Drop(rs, b)), Batch(candidates, b), x);
    SelectedLeavesMembers(candidates, rs);
  }

  /** A reply whose stripped content is `NONE` in any case picks nothing. */
  lemma NoneReplyPicksNothing(text: string, batch: seq<string>)
    requires Upper(Strip(text)) == "NONE"
    ensures BatchPicks(Content(text), batch) == []
  {
  }

  /** `None`, as the AI might write it, is such a reply. */
  lemma NoneSpelledAnyCase(batch: seq<string>)
    ensures BatchPicks(Content("None"), batch) == []
  {
    StripUnchanged("None");
    assert Upper("None") == "NONE";
  }

  /** Replies that all fail, have no content or say `NONE` pick nothing. */
  lemma {:induction false} AllNoneSelectsNothing(candidates: seq<string>, rs: seq<Reply>, k: nat)
    requires k <= BatchCount(|candidates|)
    requires forall i :: 0 <= i < |rs| ==> !rs[i].Content? || Upper(Strip(rs[i].text)) == "NONE"
    ensures CollectedPicks(candidates, rs, k) == []
  {
    if k > 0 {
      AllNoneSelectsNothing(candidates, rs, k - 1);
      BatchPicksMembers(Next(Drop(rs, k - 1)), Batch(candidates, k - 1));
    }
  }
}
