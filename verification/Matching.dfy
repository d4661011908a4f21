/**
gmock's maximum bipartite matching (MaxBipartiteMatchState): a depth-first
augmenting search from each left node, each tried once. A failed search leaves
a dead region: right nodes that are all matched and whose partners' edges stay
inside the region. No later augmentation can touch it, and the dead regions
give a vertex cover as large as the matching.
*/
module Matching {

  const UNUSED: int := -1   // kUnused

  /** MatchMatrix: has[l][r] is HasEdge(l, r). */
  datatype Graph = Graph(lhs: nat, rhs: nat, has: seq<seq<bool>>) {
    ghost predicate WellFormed() {
      |has| == lhs && forall l :: 0 <= l < lhs ==> |has[l]| == rhs
    }
  }

  predicate Edge(g: Graph, l: int, r: int) {
    0 <= l < g.lhs && 0 <= r < g.rhs && l < |g.has| && r < |g.has[l]| && g.has[l][r]
  }

  // ----------------------------------------------------------- specification

  ghost predicate IsMatching(g: Graph, m: set<(int, int)>) {
    && (forall p <- m :: Edge(g, p.0, p.1))
    && forall p, q :: p in m && q in m && (p.0 == q.0 || p.1 == q.1) ==> p == q
  }

  /** No matching of the graph is larger. */
  ghost predicate IsMaximum(g: Graph, m: set<(int, int)>) {
    IsMatching(g, m) && forall other: set<(int, int)> :: IsMatching(g, other) ==> |other| <= |m|
  }

  // ---------------------------------------------------------- state predicates

  predicate LeftOk(g: Graph, left: seq<int>, right: seq<int>, l: int)
    requires |left| == g.lhs && |right| == g.rhs && 0 <= l < g.lhs
  {
    left[l] == UNUSED || (Edge(g, l, left[l]) && right[left[l]] == l)
  }

  predicate RightOk(g: Graph, left: seq<int>, right: seq<int>, r: int)
    requires |left| == g.lhs && |right| == g.rhs && 0 <= r < g.rhs
  {
    right[r] == UNUSED || (0 <= right[r] < g.lhs && left[right[r]] == r)
  }

  /** left_ and right_ are mutually referent, except that right node `hole` may
      still name the left node `owner` that has just been moved away from it. */
  ghost predicate MutualBut(g: Graph, left: seq<int>, right: seq<int>, owner: int, hole: int) {
    && |left| == g.lhs && |right| == g.rhs
    && (forall l :: 0 <= l < g.lhs ==> LeftOk(g, left, right, l))
    && (forall r :: 0 <= r < g.rhs && r != hole ==> RightOk(g, left, right, r))
    && (0 <= hole < g.rhs && 0 <= owner < g.lhs ==> right[hole] == owner && left[owner] != hole)
  }

  ghost predicate Mutual(g: Graph, left: seq<int>, right: seq<int>) {
    MutualBut(g, left, right, UNUSED, UNUSED)
  }

  /** A dead region: matched right nodes that their partners cannot leave. */
  ghost predicate Dead(g: Graph, right: seq<int>, dead: set<nat>) {
    && |right| == g.rhs
    && forall d <- dead :: 0 <= d < g.rhs && right[d] != UNUSED && Confined(g, right[d], dead)
  }

  ghost predicate Confined(g: Graph, l: int, region: set<nat>) {
    forall r :: Edge(g, l, r) ==> r in region
  }

  /** What a failed search leaves behind: everything it newly marked is matched,
      and the partners' edges lead to marked nodes only. */
  ghost predicate Explored(g: Graph, right: seq<int>, before: seq<bool>, after: seq<bool>) {
    && |before| == |after| == |right| == g.rhs
    && (forall r :: 0 <= r < g.rhs && before[r] ==> after[r])
    && forall r :: 0 <= r < g.rhs && after[r] && !before[r] ==>
         right[r] != UNUSED && LeadsToMarked(g, right[r], after)
  }

  ghost predicate LeadsToMarked(g: Graph, l: int, marked: seq<bool>)
    requires |marked| == g.rhs
  {
    forall r :: Edge(g, l, r) ==> marked[r]
  }

  ghost function Unmarked(marked: seq<bool>): set<nat> {
    set r: nat | r < |marked| && !marked[r]
  }

  /** What a successful search from `root` keeps. */
  ghost predicate Augmented(g: Graph, left: seq<int>, right: seq<int>, left': seq<int>, right': seq<int>,
                            marked: seq<bool>, root: int, dead: set<nat>)
    requires |left| == |left'| == g.lhs && |right| == |right'| == |marked| == g.rhs && 0 <= root < g.lhs
  {
    && MutualBut(g, left', right', root, left[root])
    && left'[root] != UNUSED
    && (forall l :: 0 <= l < g.lhs && l != root ==> (left[l] == UNUSED <==> left'[l] == UNUSED))
    && (forall l :: 0 <= l < g.lhs && l != root && 0 <= left[l] < g.rhs && marked[left[l]] ==> left'[l] == left[l])
    && (forall r :: 0 <= r < g.rhs && marked[r] ==> right'[r] == right[r])
    && (forall d :: d in dead && 0 <= d < g.rhs ==> right'[d] == right[d])
  }

  class MaxBipartiteMatchState {
    const g: Graph
    const left: array<int>
    const right: array<int>

    constructor (graph: Graph)
      requires graph.WellFormed()
      ensures g == graph && Shaped()
      ensures forall l :: 0 <= l < g.lhs ==> left[l] == UNUSED
      ensures forall r :: 0 <= r < g.rhs ==> right[r] == UNUSED
      ensures fresh(left) && fresh(right)
    {
      g := graph;
      left := new int[graph.lhs](_ => UNUSED);
      right := new int[graph.rhs](_ => UNUSED);
    }

    ghost predicate Shaped() {
      g.WellFormed() && left.Length == g.lhs && right.Length == g.rhs && left != right
    }

    /** Depth-first search from left node ilhs; `dead` is any dead region. */
    method TryAugment(ilhs: int, seen: array<bool>, ghost dead: set<nat>) returns (found: bool)
      requires Shaped() && 0 <= ilhs < g.lhs && seen.Length == g.rhs
      requires Mutual(g, left[..], right[..])
      requires Dead(g, right[..], dead)
      requires 0 <= left[ilhs] < g.rhs ==> seen[left[ilhs]]
      modifies left, right, seen
      ensures found ==> Augmented(g, old(left[..]), old(right[..]), left[..], right[..], old(seen[..]), ilhs, dead)
      ensures !found ==> left[..] == old(left[..]) && right[..] == old(right[..])
      ensures !found ==> Explored(g, right[..], old(seen[..]), seen[..]) && LeadsToMarked(g, ilhs, seen[..])
      ensures Confined(g, ilhs, dead) ==> !found
      decreases Unmarked(seen[..])
    {
      ghost var marked0 := seen[..];
      ghost var left0, right0 := left[..], right[..];
      var irhs := 0;
      while irhs < g.rhs
        invariant 0 <= irhs <= g.rhs
        invariant left[..] == left0 && right[..] == right0
        invariant Explored(g, right0, marked0, seen[..])
        invariant forall r :: 0 <= r < irhs && Edge(g, ilhs, r) ==> seen[r]
      {
        if !seen[irhs] && g.has[ilhs][irhs] {
          seen[irhs] := true;
          if right[irhs] == UNUSED {
            left[ilhs] := irhs;
            right[irhs] := ilhs;
            LinkFree(g, left0, right0, marked0, ilhs, irhs, dead);
            return true;
          }
          ghost var marked1 := seen[..];
          var next := right[irhs];
          assert RightOk(g, left0, right0, irhs);
          assert irhs in Unmarked(marked0) && irhs !in Unmarked(marked1);
          assert Unmarked(marked1) < Unmarked(marked0);
          var deeper := TryAugment(next, seen, dead);
          if deeper {
            ghost var left1, right1 := left[..], right[..];
            left[ilhs] := irhs;
            right[irhs] := ilhs;
            LinkDeeper(g, left0, right0, left1, right1, marked0, marked1, ilhs, irhs, dead);
            return true;
          }
        }
        irhs := irhs + 1;
      }
      return false;
    }

    /** The pairs held in left_, in order of their left nodes. */
    method Collect() returns (result: seq<(int, int)>)
      requires Shaped()
      ensures forall p :: p in Pairs(result) <==> 0 <= p.0 < g.lhs && left[p.0] != UNUSED && p.1 == left[p.0]
      ensures |Pairs(result)| == |result|
      ensures forall i, j :: 0 <= i < j < |result| ==> result[i].0 < result[j].0
    {
      result := [];
      var ilhs := 0;
      while ilhs < left.Length
        invariant 0 <= ilhs <= left.Length
        invariant Collected(left[..], ilhs, result)
      {
        var irhs := left[ilhs];
        if irhs != UNUSED {
          result := result + [(ilhs, irhs)];
        }
        ilhs := ilhs + 1;
      }
      CollectedPairs(left[..], ilhs, result);
    }

    /** Returns the edges of a maximum matching, in order of their left nodes. */
    method Compute() returns (result: seq<(int, int)>)
      requires Shaped()
      requires forall l :: 0 <= l < g.lhs ==> left[l] == UNUSED
      requires forall r :: 0 <= r < g.rhs ==> right[r] == UNUSED
      modifies left, right
      ensures IsMaximum(g, Pairs(result)) && |Pairs(result)| == |result|
      ensures forall i, j :: 0 <= i < j < |result| ==> result[i].0 < result[j].0
    {
      ghost var dead: set<nat> := {};
      var ilhs := 0;
      while ilhs < g.lhs
        invariant 0 <= ilhs <= g.lhs
        invariant Mutual(g, left[..], right[..])
        invariant Dead(g, right[..], dead)
        invariant forall l :: ilhs <= l < g.lhs ==> left[l] == UNUSED
        invariant forall l :: 0 <= l < ilhs && left[l] == UNUSED ==> Confined(g, l, dead)
      {
        assert left[ilhs] == UNUSED;   // the GTEST_CHECK_ never fires
        var seen := new bool[g.rhs](_ => false);
        ghost var left0, right0, seen0 := left[..], right[..], seen[..];
        var found := TryAugment(ilhs, seen, dead);
        if found {
          AugmentKeepsDead(g, left0, right0, left[..], right[..], seen0, ilhs, dead);
        } else {
          dead := FailureExtendsDead(g, right[..], seen0, seen[..], ilhs, dead);
        }
        ilhs := ilhs + 1;
      }
      result := Collect();
      DeadRegionsProveMaximum(g, left[..], right[..], dead, Pairs(result));
    }
  }

  /** Runs the search on a fresh state: a maximum matching of any graph. */
  method FindMaxBipartiteMatching(graph: Graph) returns (result: seq<(int, int)>)
    requires graph.WellFormed()
    ensures IsMaximum(graph, Pairs(result)) && |Pairs(result)| == |result|
    ensures forall i, j :: 0 <= i < j < |result| ==> result[i].0 < result[j].0
  {
    var state := new MaxBipartiteMatchState(graph);
    result := state.Compute();
  }

  /** `result` lists the pairs of the first n left nodes in order. */
  ghost predicate Collected(left: seq<int>, n: nat, result: seq<(int, int)>) {
    && n <= |left|
    && (forall i :: 0 <= i < |result| ==> 0 <= result[i].0 < n && left[result[i].0] == result[i].1 != UNUSED)
    && (forall i, j :: 0 <= i < j < |result| ==> result[i].0 < result[j].0)
    && (forall l :: 0 <= l < n && left[l] != UNUSED ==> (l, left[l]) in result)
  }

  lemma CollectedPairs(left: seq<int>, n: nat, result: seq<(int, int)>)
    requires Collected(left, n, result)
    ensures forall p :: p in Pairs(result) <==> 0 <= p.0 < n && left[p.0] != UNUSED && p.1 == left[p.0]
    ensures |Pairs(result)| == |result|
  {
    PairsCount(result);
  }

  lemma {:induction false} PairsCount(s: seq<(int, int)>)
    requires forall i, j :: 0 <= i < j < |s| ==> s[i].0 < s[j].0
    ensures |Pairs(s)| == |s|
  {
    if s != [] {
      var n := |s| - 1;
      PairsCount(s[..n]);
      assert s == s[..n] + [s[n]];
      assert Pairs(s) == Pairs(s[..n]) + {s[n]};
      assert s[n] !in Pairs(s[..n]);
    }
  }

  ghost function Pairs(s: seq<(int, int)>): set<(int, int)> {
    set p | p in s
  }

  lemma AugmentKeepsDead(g: Graph, left: seq<int>, right: seq<int>, left': seq<int>, right': seq<int>,
                         marked: seq<bool>, root: int, dead: set<nat>)
    requires |left| == |left'| == g.lhs && |right| == |right'| == |marked| == g.rhs && 0 <= root < g.lhs
    requires Dead(g, right, dead) && left[root] == UNUSED
    requires Augmented(g, left, right, left', right', marked, root, dead)
    ensures Mutual(g, left', right') && Dead(g, right', dead)
  {
  }

  /** The nodes marked by a failed search join the dead region, and confine its root. */
  lemma FailureExtendsDead(g: Graph, right: seq<int>, before: seq<bool>, after: seq<bool>, root: int, dead: set<nat>)
    returns (dead': set<nat>)
    requires Dead(g, right, dead) && Explored(g, right, before, after) && LeadsToMarked(g, root, after)
    requires forall r :: 0 <= r < g.rhs ==> !before[r]
    ensures dead <= dead' && Dead(g, right, dead') && Confined(g, root, dead')
  {
    dead' := dead + set r: nat | r < g.rhs && after[r];
  }

  // ------------------------------------------------------ the counting argument

  /** A matching is no larger than a vertex cover. */
  lemma {:induction false} CoverBounds(g: Graph, m: set<(int, int)>, rights: set<nat>, lefts: set<nat>)
    requires IsMatching(g, m) && forall p <- m :: p.1 in rights || p.0 in lefts
    ensures |m| <= |rights| + |lefts|
    decreases |m|
  {
    if m != {} {
      var p :| p in m;
      var rest := m - {p};
      assert IsMatching(g, rest);
      if p.1 in rights {
        CoverBounds(g, rest, rights - {p.1}, lefts);
      } else {
        CoverBounds(g, rest, rights, lefts - {p.0});
      }
    }
  }

  lemma Member(s: set<nat>) returns (x: nat)
    requires |s| > 0
    ensures x in s
  {
    x :| x in s;
  }

  /** Distinct right nodes, and distinct left nodes matched elsewhere, need distinct pairs. */
  lemma {:induction false} PairsSuffice(m: set<(int, int)>, rights: set<nat>, lefts: set<nat>)
    requires forall d <- rights :: exists p :: p in m && p.1 == d
    requires forall c <- lefts :: exists p :: p in m && p.0 == c && p.1 !in rights
    ensures |rights| + |lefts| <= |m|
    decreases rights, lefts
  {
    if |rights| > 0 {
      var d := Member(rights);
      var p :| p in m && p.1 == d;
      forall d' | d' in rights - {d}
        ensures exists q :: q in m - {p} && q.1 == d'
      {
        var q :| q in m && q.1 == d';
        assert q in m - {p};
      }
      forall c | c in lefts
        ensures exists q :: q in m - {p} && q.0 == c && q.1 !in rights - {d}
      {
        var q :| q in m && q.0 == c && q.1 !in rights;
        assert q in m - {p};
      }
      PairsSuffice(m - {p}, rights - {d}, lefts);
    } else if |lefts| > 0 {
      var c := Member(lefts);
      var p :| p in m && p.0 == c && p.1 !in rights;
      forall c' | c' in lefts - {c}
        ensures exists q :: q in m - {p} && q.0 == c' && q.1 !in rights
      {
        var q :| q in m && q.0 == c' && q.1 !in rights;
        assert q in m - {p};
      }
      PairsSuffice(m - {p}, rights, lefts - {c});
    }
  }

  /** Dead right nodes together with the left nodes matched outside the dead
      regions cover every edge, and there are as many of them as matched pairs. */
  lemma DeadRegionsProveMaximum(g: Graph, left: seq<int>, right: seq<int>, dead: set<nat>, m: set<(int, int)>)
    requires Mutual(g, left, right) && Dead(g, right, dead)
    requires forall l :: 0 <= l < g.lhs && left[l] == UNUSED ==> Confined(g, l, dead)
    requires forall p :: p in m <==> 0 <= p.0 < g.lhs && left[p.0] != UNUSED && p.1 == left[p.0]
    ensures IsMaximum(g, m)
  {
    forall p, q | p in m && q in m && (p.0 == q.0 || p.1 == q.1)
      ensures p == q && Edge(g, p.0, p.1)
    {
      assert LeftOk(g, left, right, p.0) && LeftOk(g, left, right, q.0);
    }
    forall p | p in m
      ensures Edge(g, p.0, p.1)
    {
      assert LeftOk(g, left, right, p.0);
    }
    var lefts := set l: nat | l < g.lhs && left[l] != UNUSED && left[l] !in dead;
    forall d | d in dead
      ensures exists p :: p in m && p.1 == d
    {
      assert RightOk(g, left, right, d);
      assert (right[d], d) in m;
    }
    forall c | c in lefts
      ensures exists p :: p in m && p.0 == c && p.1 !in dead
    {
      assert (c, left[c]) in m;
    }
    PairsSuffice(m, dead, lefts);
    forall other: set<(int, int)> | IsMatching(g, other)
      ensures |other| <= |m|
    {
      forall p | p in other
        ensures p.1 in dead || p.0 in lefts
      {
        assert Edge(g, p.0, p.1);
        if left[p.0] in dead {
          assert LeftOk(g, left, right, p.0);
        }
      }
      CoverBounds(g, other, dead, lefts);
    }
  }

  /** Linking ilhs to a right node nobody points to moves the hole to ilhs's old partner. */
  lemma Link(g: Graph, left: seq<int>, right: seq<int>, owner: int, hole: int, ilhs: int, irhs: int)
    requires MutualBut(g, left, right, owner, hole) && (hole == irhs || hole == UNUSED)
    requires 0 <= ilhs < g.lhs && Edge(g, ilhs, irhs)
    requires forall l :: 0 <= l < g.lhs ==> left[l] != irhs
    requires left[ilhs] == UNUSED || (0 <= left[ilhs] < g.rhs && right[left[ilhs]] == ilhs)
    ensures MutualBut(g, left[ilhs := irhs], right[irhs := ilhs], ilhs, left[ilhs])
  {
    var left', right' := left[ilhs := irhs], right[irhs := ilhs];
    forall l | 0 <= l < g.lhs
      ensures LeftOk(g, left', right', l)
    {
      assert LeftOk(g, left, right, l);
    }
    forall r | 0 <= r < g.rhs && r != left[ilhs]
      ensures RightOk(g, left', right', r)
    {
      assert r != irhs ==> RightOk(g, left, right, r);
    }
  }

  lemma LinkFree(g: Graph, left: seq<int>, right: seq<int>, marked: seq<bool>, ilhs: int, irhs: int, dead: set<nat>)
    requires Mutual(g, left, right) && Dead(g, right, dead) && |marked| == g.rhs
    requires 0 <= ilhs < g.lhs && Edge(g, ilhs, irhs) && right[irhs] == UNUSED && !marked[irhs]
    requires 0 <= left[ilhs] < g.rhs ==> marked[left[ilhs]]
    ensures Augmented(g, left, right, left[ilhs := irhs], right[irhs := ilhs], marked, ilhs, dead)
    ensures !Confined(g, ilhs, dead)
  {
    forall l | 0 <= l < g.lhs
      ensures left[l] != irhs
    {
      assert LeftOk(g, left, right, l);
    }
    assert LeftOk(g, left, right, ilhs);
    assert irhs !in dead;
    Link(g, left, right, UNUSED, UNUSED, ilhs, irhs);
  }

  lemma LinkDeeper(g: Graph, left: seq<int>, right: seq<int>, left1: seq<int>, right1: seq<int>,
                   marked: seq<bool>, marked1: seq<bool>, ilhs: int, irhs: int, dead: set<nat>)
    requires Mutual(g, left, right) && Dead(g, right, dead) && |marked| == |marked1| == g.rhs
    requires |left1| == g.lhs && |right1| == g.rhs
    requires 0 <= ilhs < g.lhs && Edge(g, ilhs, irhs) && right[irhs] != UNUSED && !marked[irhs]
    requires 0 <= left[ilhs] < g.rhs ==> marked[left[ilhs]]
    requires marked1[irhs] && forall r :: 0 <= r < g.rhs && marked[r] ==> marked1[r]
    requires 0 <= right[irhs] < g.lhs && left[right[irhs]] == irhs
    requires Augmented(g, left, right, left1, right1, marked1, right[irhs], dead)
    requires !Confined(g, right[irhs], dead)
    ensures Augmented(g, left, right, left1[ilhs := irhs], right1[irhs := ilhs], marked, ilhs, dead)
    ensures !Confined(g, ilhs, dead)
  {
    assert LeftOk(g, left, right, ilhs) && LeftOk(g, left1, right1, ilhs);
    assert irhs !in dead;
    forall l | 0 <= l < g.lhs
      ensures left1[l] != irhs
    {
      assert LeftOk(g, left1, right1, l);
    }
    Link(g, left1, right1, right[irhs], irhs, ilhs, irhs);
  }
}
