/**
 * Paths in an adjacency map: what the two searches return and what "shortest"
 * means. A path is a non-empty node sequence whose nodes are registered and
 * whose consecutive nodes are edges; it is simple when no node repeats.
 */
module Paths {
  import opened Wrappers
  import opened Graphs

  /** Every node is registered and each node after the first is a child of its predecessor. */
  ghost predicate IsWalk(adj: map<Node, seq<Node>>, older p: seq<Node>) {
    && (forall k :: 0 <= k < |p| ==> p[k] in adj)
    && (forall k :: 0 < k < |p| ==> p[k] in adj[p[k - 1]])
  }

  /** `p` is a path from `s` to `e`. */
  ghost predicate IsPath(adj: map<Node, seq<Node>>, older p: seq<Node>, s: Node, e: Node) {
    |p| >= 1 && p[0] == s && p[|p| - 1] == e && IsWalk(adj, p)
  }

  /** `p` is a path from `s` to `e` that visits no node twice. */
  ghost predicate IsSimplePath(adj: map<Node, seq<Node>>, older p: seq<Node>, s: Node, e: Node) {
    IsPath(adj, p, s, e) && Distinct(p)
  }

  ghost predicate Reachable(adj: map<Node, seq<Node>>, s: Node, e: Node) {
    exists p :: IsPath(adj, p, s, e)
  }

  /** `p` is a simple path from `s` to `e` with no more nodes than any path from `s` to `e`. */
  ghost predicate IsShortestPath(adj: map<Node, seq<Node>>, p: seq<Node>, s: Node, e: Node) {
    IsSimplePath(adj, p, s, e) && forall q :: IsPath(adj, q, s, e) ==> |p| <= |q|
  }

  /**
   * What a shortest-path search promises: no result exactly when `e` cannot be
   * reached from `s` (in particular when either is not registered), and
   * otherwise a shortest path.
   */
  ghost predicate SearchSpec(adj: map<Node, seq<Node>>, s: Node, e: Node, r: Option<seq<Node>>) {
    && (r.None? <==> !Reachable(adj, s, e))
    && (r.Some? ==> IsShortestPath(adj, r.value, s, e))
  }

  /** `q` is a prefix of `s`. */
  predicate IsPrefix(q: seq<Node>, s: seq<Node>) {
    |q| <= |s| && s[..|q|] == q
  }

  /** Cutting out the cycle between two visits of the same node leaves a shorter path between the same ends. */
  lemma CutCycle(adj: map<Node, seq<Node>>, p: seq<Node>, s: Node, e: Node, i: nat, j: nat)
    requires IsPath(adj, p, s, e) && i < j < |p| && p[i] == p[j]
    ensures IsPath(adj, p[..i] + p[j..], s, e) && |p[..i] + p[j..]| < |p|
  {
    var q := p[..i] + p[j..];
    assert forall k :: 0 <= k < |q| ==> q[k] == if k < i then p[k] else p[k - i + j];
    forall k | 0 < k < |q| ensures q[k] in adj[q[k - 1]] {
      if k == i {
        assert q[k] == p[i] && q[k - 1] == p[i - 1];
      }
    }
  }

  /** Every path can be shortened to a simple path between the same ends. */
  lemma {:induction false} Shortcut(adj: map<Node, seq<Node>>, p: seq<Node>, s: Node, e: Node) returns (q: seq<Node>)
    requires IsPath(adj, p, s, e)
    ensures IsSimplePath(adj, q, s, e) && |q| <= |p|
    decreases |p|
  {
    if Distinct(p) {
      q := p;
    } else {
      var i, j :| 0 <= i < j < |p| && p[i] == p[j];
      CutCycle(adj, p, s, e, i, j);
      q := Shortcut(adj, p[..i] + p[j..], s, e);
    }
  }

  /** A simple path no longer than any other simple path between its ends is a shortest path. */
  lemma ShortestAmongSimple(adj: map<Node, seq<Node>>, p: seq<Node>, s: Node, e: Node)
    requires IsSimplePath(adj, p, s, e)
    requires forall q :: IsSimplePath(adj, q, s, e) ==> |p| <= |q|
    ensures IsShortestPath(adj, p, s, e)
  {
    forall q | IsPath(adj, q, s, e) ensures |p| <= |q| {
      var q' := Shortcut(adj, q, s, e);
    }
  }

  /** Without a simple path from `s` to `e` there is no path at all. */
  lemma NoSimplePathUnreachable(adj: map<Node, seq<Node>>, s: Node, e: Node)
    requires forall q :: !IsSimplePath(adj, q, s, e)
    ensures !Reachable(adj, s, e)
  {
    if Reachable(adj, s, e) {
      var p :| IsPath(adj, p, s, e);
      var q := Shortcut(adj, p, s, e);
    }
  }

  /** A node sequence without repeats drawn from `nodes` is no longer than `nodes` is large. */
  lemma {:induction false} DistinctBound(p: seq<Node>, nodes: set<Node>)
    requires Distinct(p) && forall k :: 0 <= k < |p| ==> p[k] in nodes
    ensures |p| <= |nodes|
  {
    if p != [] {
      var x := p[|p| - 1];
      var rest := nodes - {x};
      assert nodes == rest + {x};
      DistinctBound(p[..|p| - 1], rest);
    }
  }

  /** A walk that starts in a set closed under taking children never leaves it. */
  lemma {:induction false} WalkStaysInClosedSet(adj: map<Node, seq<Node>>, p: seq<Node>, inside: set<Node>)
    requires IsWalk(adj, p) && |p| >= 1 && p[0] in inside
    requires forall n, c :: n in inside && n in adj && c in adj[n] ==> c in inside
    ensures forall k :: 0 <= k < |p| ==> p[k] in inside
  {
    if |p| > 1 {
      var init := p[..|p| - 1];
      assert IsWalk(adj, init);
      WalkStaysInClosedSet(adj, init, inside);
      assert p[|p| - 2] == init[|init| - 1];
    }
  }
}
