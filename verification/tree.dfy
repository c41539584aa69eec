/**
 * The nested category tree `_build_taxonomy_tree` builds. A node of the nested
 * dictionary is identified by the names on the way to it from the root, so the
 * tree is a map from those name sequences to the node's `is_leaf` flag; a
 * node's children are the keys one name longer that extend it.
 */
module Tree {
  import opened Lists
  import opened Text
  import opened Taxonomy

  type Nodes = map<seq<string>, bool>

  /** Every node's parent is in the tree too (the root is implicit). */
  predicate PrefixClosed(m: Nodes) {
    forall key :: key in m ==> |key| > 0 && (|key| > 1 ==> key[..|key| - 1] in m)
  }

  /** `[p.strip() for p in parts]`. */
  function StripEach(parts: seq<string>): (r: seq<string>)
    ensures |r| == |parts| && forall k :: 0 <= k < |parts| ==> r[k] == Strip(parts[k])
  {
    seq(|parts|, k requires 0 <= k < |parts| => Strip(parts[k]))
  }

  /**
   * The node `_add_to_tree(tree, path, ...)` ends at: the path itself, unsplit,
   * when it has no `'>'`; otherwise the stripped pieces between the `'>'`s.
   */
  function TreeKey(path: string): (key: seq<string>)
    ensures '>' !in path ==> key == [path]
    ensures '>' in path ==> |key| >= 2
  {
    if '>' !in path then [path]
    else
      ContainsChar(path, '>');
      StripEach(Split(path, ">"))
  }

  /** One pass of the walk in `_add_to_tree`: step `i` visits the node `parts[..i + 1]`. */
  function Visit(m: Nodes, parts: seq<string>, i: nat, isLeaf: bool): Nodes
    requires i < |parts|
  {
    var key := parts[..i + 1];
    var last := i == |parts| - 1;
    if i == 0 then (if key in m then m else m[key := false])
    else if key !in m then m[key := last && isLeaf]
    else if last then m[key := isLeaf]
    else m
  }

  /** The tree after the first `k` steps of the walk. */
  function Descend(m: Nodes, parts: seq<string>, k: nat, isLeaf: bool): Nodes
    requires k <= |parts|
  {
    if k == 0 then m else Visit(Descend(m, parts, k - 1, isLeaf), parts, k - 1, isLeaf)
  }

  /** The tree after `_add_to_tree(tree, path, isLeaf)`. */
  function Inserted(m: Nodes, path: string, isLeaf: bool): Nodes {
    if '>' !in path then m[[path] := isLeaf]
    else Descend(m, TreeKey(path), |TreeKey(path)|, isLeaf)
  }

  /** The first `k` nodes of the chain `key` are in `r`. */
  predicate ChainUpTo(r: Nodes, key: seq<string>, k: nat)
    requires k <= |key|
  {
    forall i :: 1 <= i <= k ==> key[..i] in r
  }

  /** Every node of `m` other than `key` is in `r` with the same flag. */
  predicate OthersKept(m: Nodes, r: Nodes, key: seq<string>) {
    forall n :: n in m && n != key ==> n in r && r[n] == m[n]
  }

  /** Every node of `r` was in `m` or is one of the first `k` nodes of the chain `key`. */
  predicate OnlyChainAdded(m: Nodes, r: Nodes, key: seq<string>, k: nat) {
    forall n :: n in r ==> n in m || (1 <= |n| <= k && |n| <= |key| && n == key[..|n|])
  }

  /** The nodes of the chain above its end that `m` lacked are non-leaves in `r`. */
  predicate NewAboveNotLeaf(m: Nodes, r: Nodes, key: seq<string>, k: nat)
    requires k <= |key|
  {
    forall i :: 1 <= i <= k && i < |key| && key[..i] !in m ==> key[..i] in r && !r[key[..i]]
  }

  lemma {:induction false} DescendChain(m: Nodes, parts: seq<string>, k: nat, b: bool)
    requires k <= |parts|
    ensures ChainUpTo(Descend(m, parts, k, b), parts, k)
  {
    if k > 0 {
      DescendChain(m, parts, k - 1, b);
    }
  }

  lemma {:induction false} DescendOthersKept(m: Nodes, parts: seq<string>, k: nat, b: bool)
    requires k <= |parts|
    ensures OthersKept(m, Descend(m, parts, k, b), parts)
  {
    if k > 0 {
      DescendOthersKept(m, parts, k - 1, b);
      if k == |parts| {
        assert parts[..k] == parts;
      }
    }
  }

  lemma {:induction false} DescendOnlyChain(m: Nodes, parts: seq<string>, k: nat, b: bool)
    requires k <= |parts|
    ensures OnlyChainAdded(m, Descend(m, parts, k, b), parts, k)
  {
    if k > 0 {
      DescendOnlyChain(m, parts, k - 1, b);
    }
  }

  lemma {:induction false} DescendNewAbove(m: Nodes, parts: seq<string>, k: nat, b: bool)
    requires k <= |parts|
    ensures NewAboveNotLeaf(m, Descend(m, parts, k, b), parts, k)
  {
    if k > 0 {
      DescendNewAbove(m, parts, k - 1, b);
      DescendOnlyChain(m, parts, k - 1, b);
      var prev := Descend(m, parts, k - 1, b);
      forall i | 1 <= i < k
        ensures parts[..i] != parts[..k]
      {
        assert |parts[..i]| != |parts[..k]|;
      }
      if parts[..k] in prev {
        assert parts[..k] in m;
      }
    }
  }

  lemma DescendLast(m: Nodes, parts: seq<string>, b: bool)
    requires |parts| >= 2
    ensures parts in Descend(m, parts, |parts|, b) && Descend(m, parts, |parts|, b)[parts] == b
  {
    assert parts[..|parts|] == parts;
  }

  /** The facts `_add_to_tree` establishes about the tree before (`m`) and after (`r`). */
  predicate ChainAdded(m: Nodes, r: Nodes, key: seq<string>, b: bool) {
    |key| > 0
    && ChainUpTo(r, key, |key|)
    && key in r && r[key] == b
    && NewAboveNotLeaf(m, r, key, |key|)
    && OthersKept(m, r, key)
    && OnlyChainAdded(m, r, key, |key|)
  }

  /**
   * `_add_to_tree(tree, path, b)` leaves a chain of nodes from the root for
   * every piece of the path; the last node's flag is `b`, newly created nodes
   * above it are not leaves, every other node keeps its flag, and no other node
   * is added.
   */
  lemma InsertedShape(m: Nodes, path: string, b: bool)
    ensures ChainAdded(m, Inserted(m, path, b), TreeKey(path), b)
  {
    var key := TreeKey(path);
    if '>' !in path {
      assert key[..1] == key;
    } else {
      DescendChain(m, key, |key|, b);
      DescendOthersKept(m, key, |key|, b);
      DescendOnlyChain(m, key, |key|, b);
      DescendNewAbove(m, key, |key|, b);
      DescendLast(m, key, b);
    }
  }

  /** Adding a chain keeps every node's parent in the tree. */
  lemma ChainAddedPrefixClosed(m: Nodes, r: Nodes, key: seq<string>, b: bool)
    requires PrefixClosed(m) && ChainAdded(m, r, key, b)
    ensures PrefixClosed(r)
  {
    forall n | n in r
      ensures |n| > 0 && (|n| > 1 ==> n[..|n| - 1] in r)
    {
      if n !in m && |n| > 1 {
        assert n[..|n| - 1] == key[..|n| - 1];
      }
    }
  }

  /** Insertion keeps every node's parent in the tree. */
  lemma InsertedPrefixClosed(m: Nodes, path: string, b: bool)
    requires PrefixClosed(m)
    ensures PrefixClosed(Inserted(m, path, b))
  {
    InsertedShape(m, path, b);
    ChainAddedPrefixClosed(m, Inserted(m, path, b), TreeKey(path), b);
  }

  /** The tree built by adding `paths[k]` with flag `markers[k]`, in order, to an empty tree. */
  function TreeOf(paths: seq<string>, markers: seq<bool>): Nodes
    requires |paths| == |markers|
  {
    if |paths| == 0 then map[]
    else Inserted(TreeOf(paths[..|paths| - 1], markers[..|paths| - 1]), Last(paths), Last(markers))
  }

  /** The whole chain from the root to `key` is in the tree. */
  predicate HoldsChain(m: Nodes, key: seq<string>) {
    ChainUpTo(m, key, |key|)
  }

  /** The built tree has every node's parent. */
  lemma {:induction false} TreeOfPrefixClosed(paths: seq<string>, markers: seq<bool>)
    requires |paths| == |markers|
    ensures PrefixClosed(TreeOf(paths, markers))
  {
    if |paths| > 0 {
      var n := |paths| - 1;
      TreeOfPrefixClosed(paths[..n], markers[..n]);
      InsertedPrefixClosed(TreeOf(paths[..n], markers[..n]), paths[n], markers[n]);
    }
  }

  /** The built tree holds the whole chain of every path added. */
  lemma {:induction false} TreeOfHoldsPaths(paths: seq<string>, markers: seq<bool>)
    requires |paths| == |markers|
    ensures forall k :: 0 <= k < |paths| ==> HoldsChain(TreeOf(paths, markers), TreeKey(paths[k]))
  {
    if |paths| > 0 {
      var n := |paths| - 1;
      var init := paths[..n];
      TreeOfHoldsPaths(init, markers[..n]);
      var m, r := TreeOf(init, markers[..n]), TreeOf(paths, markers);
      InsertedGrows(m, paths[n], markers[n]);
      forall k | 0 <= k < n
        ensures HoldsChain(r, TreeKey(paths[k]))
      {
        assert paths[k] == init[k];
        ChainSurvives(m, r, TreeKey(paths[k]));
      }
    }
  }

  /** Every node of `m` is still in `r`. */
  predicate Grows(m: Nodes, r: Nodes) {
    forall n :: n in m ==> n in r
  }

  /** Insertion loses no node and leaves the chain of the path inserted. */
  lemma InsertedGrows(m: Nodes, path: string, b: bool)
    ensures Grows(m, Inserted(m, path, b))
    ensures HoldsChain(Inserted(m, path, b), TreeKey(path))
  {
    InsertedShape(m, path, b);
  }

  /** A chain already in the tree survives its growth. */
  lemma ChainSurvives(m: Nodes, r: Nodes, key: seq<string>)
    requires Grows(m, r) && HoldsChain(m, key)
    ensures HoldsChain(r, key)
  {
  }

  /** The nested-dictionary tree, updated in place. */
  class TaxonomyTree {
    var nodes: Nodes

    /** `{"name": "root", "children": {}}`. */
    constructor()
      ensures nodes == map[]
    {
      nodes := map[];
    }

    /** `_add_to_tree`: walks down the pieces of `path`, creating missing nodes. */
    method AddPath(path: string, isLeaf: bool)
      modifies this
      ensures nodes == Inserted(old(nodes), path, isLeaf)
    {
      if '>' !in path {
        // A new top-level node and an existing one both end up with the given flag.
        nodes := nodes[[path] := isLeaf];
        return;
      }
      var parts := StripEach(Split(path, ">"));
      assert parts == TreeKey(path);
      var i := 0;
      while i < |parts|
        invariant i <= |parts|
        invariant nodes == Descend(old(nodes), parts, i, isLeaf)
      {
        var key := parts[..i + 1];
        if i == 0 {
          if key !in nodes {
            nodes := nodes[key := false];
          }
        } else {
          if key !in nodes {
            nodes := nodes[key := i == |parts| - 1 && isLeaf];
          } else if i == |parts| - 1 {
            nodes := nodes[key := isLeaf];
          }
        }
        i := i + 1;
      }
    }
  }
}
