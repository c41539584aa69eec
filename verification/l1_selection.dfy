/**
 * Stage 1 and its category validation: which of the AI's answer lines are
 * kept as L1 categories, and how `_validate_categories` and
 * `_validate_category` match an answer against the available categories
 * ignoring case.
 */
module L1Selection {
  import opened Lists
  import opened Text
  import opened Oracle

  /** The categories lower-cased, position by position. */
  function Lowers(xs: seq<string>): (r: seq<string>)
    ensures |r| == |xs| && forall k :: 0 <= k < |xs| ==> r[k] == Lower(xs[k])
  {
    seq(|xs|, k requires 0 <= k < |xs| => Lower(xs[k]))
  }

  /** No two entries are equal ignoring case. */
  predicate CaseDistinct(xs: seq<string>) {
    forall i, j :: 0 <= i < j < |xs| ==> Lower(xs[i]) != Lower(xs[j])
  }

  lemma CaseDistinctNoDuplicates(xs: seq<string>)
    requires CaseDistinct(xs)
    ensures NoDuplicates(xs)
  {
  }

  // ---------------------------------------------------------------------
  // The answer lines of Stage 1.

  /** `[c for c in xs if c in known]`: the answers that are categories exactly as spelt. */
  function KnownOnly(xs: seq<string>, known: seq<string>): seq<string> {
    if |xs| == 0 then []
    else KnownOnly(xs[..|xs| - 1], known) + (if Last(xs) in known then [Last(xs)] else [])
  }

  lemma {:induction false} KnownOnlyMembers(xs: seq<string>, known: seq<string>)
    ensures forall x :: x in KnownOnly(xs, known) <==> x in xs && x in known
  {
    if |xs| > 0 {
      var init := xs[..|xs| - 1];
      KnownOnlyMembers(init, known);
      assert forall x :: x in xs <==> x in init || x == Last(xs);
    }
  }

  /** Filtering a concatenation filters each part in turn, so the kept answers keep their order. */
  lemma {:induction false} KnownOnlyConcat(xs: seq<string>, ys: seq<string>, known: seq<string>)
    ensures KnownOnly(xs + ys, known) == KnownOnly(xs, known) + KnownOnly(ys, known)
    decreases |ys|
  {
    if |ys| == 0 {
      assert xs + ys == xs;
    } else {
      var init := ys[..|ys| - 1];
      KnownOnlyConcat(xs, init, known);
      assert (xs + ys)[..|xs + ys| - 1] == xs + init;
      assert Last(xs + ys) == Last(ys);
    }
  }

  /** When no answer is a known category, nothing is kept. */
  lemma {:induction false} KnownOnlyNone(xs: seq<string>, known: seq<string>)
    requires forall k :: 0 <= k < |xs| ==> xs[k] !in known
    ensures KnownOnly(xs, known) == []
  {
    if |xs| > 0 {
      KnownOnlyNone(xs[..|xs| - 1], known);
    }
  }

  /** The first answer kept is the first answer that is a known category. */
  lemma KnownOnlyFirst(xs: seq<string>, known: seq<string>, i: int)
    requires 0 <= i < |xs| && xs[i] in known
    requires forall j :: 0 <= j < i ==> xs[j] !in known
    ensures |KnownOnly(xs, known)| > 0 && KnownOnly(xs, known)[0] == xs[i]
  {
    var before, after := xs[..i], xs[i + 1..];
    KnownOnlyNone(before, known);
    assert KnownOnly([xs[i]], known) == [xs[i]] by {
      assert [xs[i]][..0] == [];
    }
    assert xs[i..] == [xs[i]] + after;
    assert xs == before + xs[i..];
    assert xs == before + [xs[i]] + after;
    KnownOnlyConcat(before + [xs[i]], after, known);
    KnownOnlyConcat(before, [xs[i]], known);
  }

  /** The `seen`-set loop over lower-cased names: the first of each case-insensitive group. */
  function CaselessDedup(xs: seq<string>): seq<string> {
    if |xs| == 0 then []
    else
      var rest := CaselessDedup(xs[..|xs| - 1]);
      if Lower(Last(xs)) in Lowers(rest) then rest else rest + [Last(xs)]
  }

  /**
   * The case-insensitive de-duplication keeps only entries of the input, no two
   * equal ignoring case, and one for every entry of the input.
   */
  lemma {:induction false} CaselessDedupShape(xs: seq<string>)
    ensures |CaselessDedup(xs)| <= |xs|
    ensures CaseDistinct(CaselessDedup(xs))
    ensures forall x :: x in CaselessDedup(xs) ==> x in xs
    ensures forall x :: x in xs ==> Lower(x) in Lowers(CaselessDedup(xs))
  {
    if |xs| > 0 {
      var init := xs[..|xs| - 1];
      CaselessDedupShape(init);
      var rest := CaselessDedup(init);
      assert forall x :: x in xs <==> x in init || x == Last(xs);
      if Lower(Last(xs)) !in Lowers(rest) {
        var r := rest + [Last(xs)];
        assert Lowers(r) == Lowers(rest) + [Lower(Last(xs))];
      }
    }
  }

  /** No entry before the `i`-th is equal to it ignoring case: it opens its case group. */
  predicate OpensGroup(xs: seq<string>, i: int)
    requires 0 <= i < |xs|
  {
    forall j :: 0 <= j < i ==> Lower(xs[j]) != Lower(xs[i])
  }

  /** The entries among the first `n` that open their case group, in input order. */
  function GroupOpeners(xs: seq<string>, n: nat): seq<string>
    requires n <= |xs|
  {
    if n == 0 then []
    else GroupOpeners(xs, n - 1) + (if OpensGroup(xs, n - 1) then [xs[n - 1]] else [])
  }

  /**
   * The case-insensitive de-duplication keeps an entry exactly when no earlier
   * entry equals it ignoring case, in input order.
   */
  lemma {:induction false} CaselessDedupOpeners(xs: seq<string>, n: nat)
    requires n <= |xs|
    ensures CaselessDedup(xs[..n]) == GroupOpeners(xs, n)
  {
    if n > 0 {
      CaselessDedupOpeners(xs, n - 1);
      var init := xs[..n - 1];
      assert xs[..n][..n - 1] == init;
      assert Last(xs[..n]) == xs[n - 1];
      CaselessDedupShape(init);
      var rest := CaselessDedup(init);
      if OpensGroup(xs, n - 1) {
        forall k | 0 <= k < |rest|
          ensures Lowers(rest)[k] != Lower(xs[n - 1])
        {
          assert rest[k] in init;
        }
      } else {
        var j :| 0 <= j < n - 1 && Lower(xs[j]) == Lower(xs[n - 1]);
        assert xs[j] in init;
      }
    }
  }

  /** The first entry always opens its group and heads the openers. */
  lemma {:induction false} GroupOpenersHead(xs: seq<string>, n: nat)
    requires 1 <= n <= |xs|
    ensures |GroupOpeners(xs, n)| > 0 && GroupOpeners(xs, n)[0] == xs[0]
  {
    if n > 1 {
      GroupOpenersHead(xs, n - 1);
    }
  }

  /**
   * A loop keeping the first answer of every case-insensitive group, as Stage 1
   * does after discarding unknown answers.
   */
  method RemoveCaseDuplicates(xs: seq<string>) returns (unique: seq<string>)
    ensures unique == CaselessDedup(xs)
  {
    var seen: set<string> := {};
    unique := [];
    for i := 0 to |xs|
      invariant unique == CaselessDedup(xs[..i])
      invariant seen == set y | y in Lowers(unique)
    {
      assert xs[..i + 1][..i] == xs[..i];
      var lowered := Lower(xs[i]);
      if lowered !in seen {
        seen := seen + {lowered};
        assert Lowers(unique + [xs[i]]) == Lowers(unique) + [lowered];
        unique := unique + [xs[i]];
      }
    }
    assert xs[..|xs|] == xs;
  }

  // ---------------------------------------------------------------------
  // Matching an answer against the available categories.

  datatype MatchKind = Exact | Partial

  /**
   * An exact match is equal ignoring case; a partial match has either name
   * contained in the other, ignoring case.
   */
  predicate Matches(kind: MatchKind, category: string, selected: string) {
    match kind
    case Exact => Lower(category) == Lower(selected)
    case Partial => Contains(Lower(selected), Lower(category)) || Contains(Lower(category), Lower(selected))
  }

  /** The first position at or after `from` whose category matches, or -1. */
  function FirstMatchFrom(available: seq<string>, selected: string, kind: MatchKind, from: nat): (r: int)
    requires from <= |available|
    ensures r == -1 || (from <= r < |available| && Matches(kind, available[r], selected))
    ensures r == -1 ==> forall j :: from <= j < |available| ==> !Matches(kind, available[j], selected)
    ensures r >= 0 ==> forall j :: from <= j < r ==> !Matches(kind, available[j], selected)
    decreases |available| - from
  {
    if from == |available| then -1
    else if Matches(kind, available[from], selected) then from
    else FirstMatchFrom(available, selected, kind, from + 1)
  }

  /** The first position whose category matches, or -1. */
  function FirstMatch(available: seq<string>, selected: string, kind: MatchKind): (r: int)
    ensures -1 <= r < |available|
    ensures r >= 0 ==> Matches(kind, available[r], selected)
    ensures r >= 0 ==> forall j :: 0 <= j < r ==> !Matches(kind, available[j], selected)
    ensures r == -1 <==> forall j :: 0 <= j < |available| ==> !Matches(kind, available[j], selected)
  {
    FirstMatchFrom(available, selected, kind, 0)
  }

  /** The scan of the available categories for the first match of one kind. */
  method FindMatch(available: seq<string>, selected: string, kind: MatchKind) returns (index: int)
    ensures index == FirstMatch(available, selected, kind)
  {
    for i := 0 to |available|
      invariant forall j :: 0 <= j < i ==> !Matches(kind, available[j], selected)
    {
      if Matches(kind, available[i], selected) {
        return i;
      }
    }
    return -1;
  }

  /** An exact match is also a partial one. */
  lemma ExactIsPartial(category: string, selected: string)
    requires Matches(Exact, category, selected)
    ensures Matches(Partial, category, selected)
  {
    var s := Lower(selected);
    assert OccursAt(s, s, 0);
  }

  /**
   * `_validate_category`: the position of the first exact match, else of the
   * first partial match, else -1.
   */
  method ValidateCategory(selected: string, available: seq<string>) returns (index: int)
    ensures -1 <= index < |available|
    ensures index == -1 <==> forall j :: 0 <= j < |available| ==> !Matches(Partial, available[j], selected)
    ensures FirstMatch(available, selected, Exact) >= 0 ==> index == FirstMatch(available, selected, Exact)
    ensures FirstMatch(available, selected, Exact) == -1 ==> index == FirstMatch(available, selected, Partial)
  {
    index := FindMatch(available, selected, Exact);
    if index >= 0 {
      ExactIsPartial(available[index], selected);
      return;
    }
    index := FindMatch(available, selected, Partial);
  }

  /**
   * The category `_validate_categories` settles on for one answer: the first
   * exact match, else the first partial match, else the answer itself.
   */
  function Resolve(selected: string, available: seq<string>): (r: string)
    ensures r in available || r == selected
    ensures FirstMatch(available, selected, Partial) >= 0 ==> r in available
    ensures FirstMatch(available, selected, Partial) == -1 ==> r == selected
  {
    var i := FirstMatch(available, selected, Exact);
    if i >= 0 then
      ExactIsPartial(available[i], selected);
      available[i]
    else
      var j := FirstMatch(available, selected, Partial);
      if j >= 0 then available[j] else selected
  }

  /**
   * An answer that is an available category resolves to the first category
   * equal to it ignoring case: itself, unless a category differing only in case
   * comes first.
   */
  lemma ResolveKnown(selected: string, available: seq<string>)
    requires selected in available
    ensures Resolve(selected, available) in available
    ensures Lower(Resolve(selected, available)) == Lower(selected)
    ensures CaseDistinct(available) ==> Resolve(selected, available) == selected
  {
    var k :| 0 <= k < |available| && available[k] == selected;
    assert Matches(Exact, available[k], selected);
  }

  /** `_validate_categories`: each answer resolved, keeping the first of each name ignoring case. */
  function Validated(selected: seq<string>, available: seq<string>): seq<string> {
    if |selected| == 0 then []
    else
      var rest := Validated(selected[..|selected| - 1], available);
      var m := Resolve(Last(selected), available);
      if Lower(m) in Lowers(rest) then rest else rest + [m]
  }

  /**
   * Validation never returns more categories than answers, never two equal
   * ignoring case, and each one is available or is an answer nothing matched.
   */
  lemma {:induction false} ValidatedShape(selected: seq<string>, available: seq<string>)
    ensures |Validated(selected, available)| <= |selected|
    ensures CaseDistinct(Validated(selected, available))
    ensures forall x :: x in Validated(selected, available) ==> x in available || x in selected
  {
    if |selected| > 0 {
      var init := selected[..|selected| - 1];
      ValidatedShape(init, available);
      var rest := Validated(init, available);
      var m := Resolve(Last(selected), available);
      assert forall x :: x in init ==> x in selected;
      if Lower(m) !in Lowers(rest) {
        assert Lowers(rest + [m]) == Lowers(rest) + [Lower(m)];
      }
    }
  }

  /**
   * Answers that are all available and pairwise distinct ignoring case are all
   * kept, in order, each replaced by an available category equal to it ignoring
   * case.
   */
  lemma {:induction false} ValidatedKnown(selected: seq<string>, available: seq<string>)
    requires forall x :: x in selected ==> x in available
    requires CaseDistinct(selected)
    ensures |Validated(selected, available)| == |selected|
    ensures forall k :: 0 <= k < |selected| ==>
      Validated(selected, available)[k] in available
      && Lower(Validated(selected, available)[k]) == Lower(selected[k])
  {
    if |selected| > 0 {
      var n := |selected| - 1;
      var init := selected[..n];
      ValidatedKnown(init, available);
      var rest := Validated(init, available);
      ResolveKnown(selected[n], available);
      var m := Resolve(selected[n], available);
      forall k | 0 <= k < |rest|
        ensures Lowers(rest)[k] != Lower(m)
      {
        assert Lower(selected[k]) != Lower(selected[n]);
      }
    }
  }

  /**
   * The loop of `_validate_categories`, resolving each answer with the
   * exact-match list and then the partial-match scan.
   */
  method ValidateCategories(selected: seq<string>, available: seq<string>) returns (valid: seq<string>)
    ensures valid == Validated(selected, available)
  {
    var seenValid: set<string> := {};
    valid := [];
    for i := 0 to |selected|
      invariant valid == Validated(selected[..i], available)
      invariant seenValid == set y | y in Lowers(valid)
    {
      assert selected[..i + 1][..i] == selected[..i];
      var s := selected[i];
      var m := s;
      var exact := FindMatch(available, s, Exact);
      if exact >= 0 {
        m := available[exact];
      } else {
        var partial := FindMatch(available, s, Partial);
        if partial >= 0 {
          m := available[partial];
        }
      }
      assert m == Resolve(s, available);
      if Lower(m) !in seenValid {
        seenValid := seenValid + {Lower(m)};
        assert Lowers(valid + [m]) == Lowers(valid) + [Lower(m)];
        valid := valid + [m];
      }
    }
    assert selected[..|selected|] == selected;
  }

  // ---------------------------------------------------------------------
  // Stage 1 as a whole.

  /** The answers Stage 1 validates: known ones, first of each case group, at most two. */
  function Stage1Picks(l1s: seq<string>, text: string): seq<string> {
    Take(CaselessDedup(KnownOnly(ReplyLines(text), l1s)), 2)
  }

  /**
   * The L1 categories Stage 1 returns for the reply to its one call: the
   * validated answers, or the first two categories when the call raised or the
   * reply had no content.
   */
  function Stage1Result(l1s: seq<string>, reply: Reply): seq<string> {
    match reply
    case Content(text) => Validated(Stage1Picks(l1s, text), l1s)
    case _ => Take(l1s, 2)
  }

  /**
   * Every Stage 1 answer kept is an L1 category spelt exactly, and they are
   * case-distinct. They are the first two known answer lines that open their
   * case group, in reply order; in particular, when some answer line is an L1
   * category, the first such line is the first pick.
   */
  lemma Stage1PicksShape(l1s: seq<string>, text: string)
    ensures |Stage1Picks(l1s, text)| <= 2
    ensures CaseDistinct(Stage1Picks(l1s, text))
    ensures forall x :: x in Stage1Picks(l1s, text) ==> x in l1s && x in ReplyLines(text)
    ensures var known := KnownOnly(ReplyLines(text), l1s);
      Stage1Picks(l1s, text) == Take(GroupOpeners(known, |known|), 2)
    ensures forall i ::
      (0 <= i < |ReplyLines(text)| && ReplyLines(text)[i] in l1s
       && forall j :: 0 <= j < i ==> ReplyLines(text)[j] !in l1s)
      ==> |Stage1Picks(l1s, text)| > 0 && Stage1Picks(l1s, text)[0] == ReplyLines(text)[i]
  {
    var lines := ReplyLines(text);
    var known := KnownOnly(lines, l1s);
    KnownOnlyMembers(lines, l1s);
    CaselessDedupShape(known);
    var d := CaselessDedup(known);
    var p := Take(d, 2);
    assert forall x :: x in p ==> x in d;
    assert known[..|known|] == known;
    CaselessDedupOpeners(known, |known|);
    forall i | 0 <= i < |lines| && lines[i] in l1s && (forall j :: 0 <= j < i ==> lines[j] !in l1s)
      ensures |p| > 0 && p[0] == lines[i]
    {
      KnownOnlyFirst(lines, l1s, i);
      GroupOpenersHead(known, |known|);
    }
  }

  /**
   * Stage 1 returns at most two L1 categories, all from the list and none
   * twice; when the reply has content they are the kept answers, one for one,
   * matched ignoring case; otherwise they are the first two categories.
   */
  lemma Stage1ResultShape(l1s: seq<string>, reply: Reply)
    requires NoDuplicates(l1s)
    ensures |Stage1Result(l1s, reply)| <= 2
    ensures NoDuplicates(Stage1Result(l1s, reply))
    ensures forall x :: x in Stage1Result(l1s, reply) ==> x in l1s
    ensures reply.Content? ==>
      var picks := Stage1Picks(l1s, reply.text);
      |Stage1Result(l1s, reply)| == |picks|
      && forall k :: 0 <= k < |picks| ==> Lower(Stage1Result(l1s, reply)[k]) == Lower(picks[k])
    ensures !reply.Content? ==> Stage1Result(l1s, reply) == Take(l1s, 2)
  {
    if reply.Content? {
      var picks := Stage1Picks(l1s, reply.text);
      Stage1PicksShape(l1s, reply.text);
      ValidatedKnown(picks, l1s);
      ValidatedShape(picks, l1s);
      CaseDistinctNoDuplicates(Stage1Result(l1s, reply));
    }
  }

  /** With L1 categories available, a failed call still yields at least one. */
  lemma Stage1FallbackNonEmpty(l1s: seq<string>, reply: Reply)
    requires |l1s| > 0 && !reply.Content?
    ensures 1 <= |Stage1Result(l1s, reply)| <= 2
    ensures Stage1Result(l1s, reply)[0] == l1s[0]
  {
  }
}
