/** The satellite links of a body arena, viewed as a graph on indices, and the
    reference notions of reachability the traversals are measured against. */
module Links {

  /** g[i] is the ordered satellite list of body i. */
  type Graph = seq<seq<nat>>

  /** Every entry of ss lies strictly between lo and hi. */
  predicate Between(ss: seq<nat>, lo: nat, hi: nat)
  {
    forall k :: 0 <= k < |ss| ==> lo < ss[k] < hi
  }

  /** Every satellite has a larger index than the body it is attached to,
      so recursion over satellites terminates. */
  predicate Forward(g: Graph)
  {
    forall i :: 0 <= i < |g| ==> Between(g[i], i, |g|)
  }

  /** Every satellite reachable from i has a larger index than the body it
      is attached to, so recursion over satellites from i terminates. Bodies
      not reached from i are unconstrained. */
  predicate ForwardFrom(g: Graph, i: nat)
    decreases |g| - i, 1
  {
    i < |g| && ForwardList(g, i, g[i])
  }

  /** The list ss hangs off body i: each entry lies after i and is itself
      ForwardFrom. */
  predicate ForwardList(g: Graph, i: nat, ss: seq<nat>)
    decreases |g| - i, 0
  {
    Between(ss, i, |g|) && forall k :: 0 <= k < |ss| ==> ForwardFrom(g, ss[k])
  }

  /** A walk: a non-empty sequence of bodies, each a satellite of the one
      before. */
  ghost predicate Walk(g: Graph, p: seq<nat>)
  {
    && |p| >= 1
    && (forall k :: 0 <= k < |p| ==> p[k] < |g|)
    && (forall k :: 0 <= k < |p| - 1 ==> p[k + 1] in g[p[k]])
  }

  /** No satellite has a smaller index than its body (a body may list itself). */
  predicate Ascending(g: Graph)
  {
    forall i, m :: 0 <= i < |g| && m in g[i] ==> i <= m < |g|
  }

  /** The number of satellite paths from i to j (the empty path counts when
      i == j). A body reached along two paths is visited twice. */
  function Paths(g: Graph, i: nat, j: nat): nat
    requires ForwardFrom(g, i)
    decreases |g| - i, 1, 0
  {
    (if i == j then 1 else 0) + PathsFrom(g, i, g[i], j)
  }

  function PathsFrom(g: Graph, i: nat, ss: seq<nat>, j: nat): nat
    requires i < |g| && ForwardList(g, i, ss)
    decreases |g| - i, 0, |ss|
  {
    if ss == [] then 0 else Paths(g, ss[0], j) + PathsFrom(g, i, ss[1..], j)
  }

  /** Pre-order listing of the bodies reached from i, satellites in order. */
  function Preorder(g: Graph, i: nat): seq<nat>
    requires ForwardFrom(g, i)
    decreases |g| - i, 1, 0
  {
    [i] + PreorderFrom(g, i, g[i])
  }

  function PreorderFrom(g: Graph, i: nat, ss: seq<nat>): seq<nat>
    requires i < |g| && ForwardList(g, i, ss)
    decreases |g| - i, 0, |ss|
  {
    if ss == [] then [] else Preorder(g, ss[0]) + PreorderFrom(g, i, ss[1..])
  }

  /** j is in exactly one satellite list, once, and that list belongs to p. */
  predicate OnlyParent(g: Graph, j: nat, p: nat)
  {
    && p < |g|
    && multiset(g[p])[j] == 1
    && forall q :: 0 <= q < |g| && q != p ==> j !in g[q]
  }

  /** No path leads back to a smaller index. */
  lemma {:induction false} PathsNeverGoBack(g: Graph, i: nat, j: nat)
    requires ForwardFrom(g, i) && j < i
    ensures Paths(g, i, j) == 0
    decreases |g| - i, 1, 0
  {
    PathsFromNeverGoBack(g, i, g[i], j);
  }

  lemma {:induction false} PathsFromNeverGoBack(g: Graph, i: nat, ss: seq<nat>, j: nat)
    requires i < |g| && ForwardList(g, i, ss) && j <= i
    ensures PathsFrom(g, i, ss, j) == 0
    decreases |g| - i, 0, |ss|
  {
    if ss != [] {
      PathsNeverGoBack(g, ss[0], j);
      PathsFromNeverGoBack(g, i, ss[1..], j);
    }
  }

  /** A body reaches itself along the empty path only. */
  lemma PathsToSelf(g: Graph, j: nat)
    requires ForwardFrom(g, j)
    ensures Paths(g, j, j) == 1
  {
    PathsFromNeverGoBack(g, j, g[j], j);
  }

  /** Pre-order lists every body as often as there are paths to it. */
  lemma {:induction false} PreorderCounts(g: Graph, i: nat, j: nat)
    requires ForwardFrom(g, i)
    ensures multiset(Preorder(g, i))[j] == Paths(g, i, j)
    decreases |g| - i, 1, 0
  {
    PreorderFromCounts(g, i, g[i], j);
  }

  lemma {:induction false} PreorderFromCounts(g: Graph, i: nat, ss: seq<nat>, j: nat)
    requires i < |g| && ForwardList(g, i, ss)
    ensures multiset(PreorderFrom(g, i, ss))[j] == PathsFrom(g, i, ss, j)
    decreases |g| - i, 0, |ss|
  {
    if ss != [] {
      PreorderCounts(g, ss[0], j);
      PreorderFromCounts(g, i, ss[1..], j);
    }
  }

  /** A sum over a list of satellites is at least each of its terms. */
  lemma {:induction false} PathsFromCoversEach(g: Graph, i: nat, ss: seq<nat>, k: nat, j: nat)
    requires i < |g| && ForwardList(g, i, ss) && k < |ss|
    ensures PathsFrom(g, i, ss, j) >= Paths(g, ss[k], j)
    decreases |ss|
  {
    if k > 0 {
      PathsFromCoversEach(g, i, ss[1..], k - 1, j);
    }
  }

  /** A positive sum has a positive term. */
  lemma {:induction false} PathsFromHasWitness(g: Graph, i: nat, ss: seq<nat>, j: nat) returns (k: nat)
    requires i < |g| && ForwardList(g, i, ss) && PathsFrom(g, i, ss, j) > 0
    ensures k < |ss| && Paths(g, ss[k], j) > 0
    decreases |ss|
  {
    if Paths(g, ss[0], j) > 0 {
      k := 0;
    } else {
      var k' := PathsFromHasWitness(g, i, ss[1..], j);
      k := k' + 1;
    }
  }

  /** Reachability extends along one satellite link. */
  lemma {:induction false} ReachOneMore(g: Graph, i: nat, c: nat, j: nat)
    requires ForwardFrom(g, i) && c < |g|
    requires Paths(g, i, c) > 0 && j in g[c]
    ensures Paths(g, i, j) > 0
    decreases |g| - i
  {
    var k :| 0 <= k < |g[c]| && g[c][k] == j;
    if i == c {
      PathsToSelf(g, j);
      PathsFromCoversEach(g, i, g[i], k, j);
    } else {
      var m := PathsFromHasWitness(g, i, g[i], c);
      ReachOneMore(g, g[i][m], c, j);
      PathsFromCoversEach(g, i, g[i], m, j);
    }
  }

  /** A body on no satellite list is reached from nowhere else. */
  lemma {:induction false} UnlinkedUnreached(g: Graph, i: nat, j: nat)
    requires ForwardFrom(g, i) && i != j
    requires forall q :: 0 <= q < |g| ==> j !in g[q]
    ensures Paths(g, i, j) == 0
    decreases |g| - i, 1, 0
  {
    UnlinkedUnreachedFrom(g, i, g[i], j);
  }

  lemma {:induction false} UnlinkedUnreachedFrom(g: Graph, i: nat, ss: seq<nat>, j: nat)
    requires i < |g| && ForwardList(g, i, ss)
    requires forall q :: 0 <= q < |g| ==> j !in g[q]
    requires j !in ss
    ensures PathsFrom(g, i, ss, j) == 0
    decreases |g| - i, 0, |ss|
  {
    if ss != [] {
      UnlinkedUnreached(g, ss[0], j);
      UnlinkedUnreachedFrom(g, i, ss[1..], j);
    }
  }

  /** When j hangs off p alone, every path to j is a path to p plus one link. */
  lemma {:induction false} PathsViaOnlyParent(g: Graph, i: nat, j: nat, p: nat)
    requires ForwardFrom(g, i) && j < |g| && p < j && OnlyParent(g, j, p) && i != j
    ensures Paths(g, i, j) == Paths(g, i, p)
    decreases |g| - i, 1, 0
  {
    PathsFromViaOnlyParent(g, i, g[i], j, p);
    if i != p {
      assert j !in g[i];
    }
  }

  lemma {:induction false} PathsFromViaOnlyParent(g: Graph, i: nat, ss: seq<nat>, j: nat, p: nat)
    requires i < |g| && ForwardList(g, i, ss)
    requires j < |g| && p < j && OnlyParent(g, j, p)
    ensures PathsFrom(g, i, ss, j) == multiset(ss)[j] + PathsFrom(g, i, ss, p)
    decreases |g| - i, 0, |ss|
  {
    if ss != [] {
      var s := ss[0];
      PathsFromViaOnlyParent(g, i, ss[1..], j, p);
      if s == j {
        PathsToSelf(g, j);
        PathsNeverGoBack(g, j, p);
      } else {
        PathsViaOnlyParent(g, s, j, p);
      }
      assert ss == [s] + ss[1..];
    }
  }


  // ----------------------------------------------------- forward from a body

  /** Links that are forward everywhere are forward from every body. */
  lemma {:induction false} ForwardEverywhere(g: Graph, i: nat)
    requires Forward(g) && i < |g|
    ensures ForwardFrom(g, i)
    decreases |g| - i
  {
    forall k | 0 <= k < |g[i]|
      ensures ForwardFrom(g, g[i][k])
    {
      ForwardEverywhere(g, g[i][k]);
    }
  }

  lemma ForwardEverywhereList(g: Graph, i: nat, ss: seq<nat>)
    requires Forward(g) && i < |g| && Between(ss, i, |g|)
    ensures ForwardList(g, i, ss)
  {
    forall k | 0 <= k < |ss|
      ensures ForwardFrom(g, ss[k])
    {
      ForwardEverywhere(g, ss[k]);
    }
  }

  /** Prefixing a body to a walk from one of its satellites gives a walk. */
  lemma WalkCons(g: Graph, i: nat, p: seq<nat>)
    requires i < |g| && Walk(g, p) && p[0] in g[i]
    ensures Walk(g, [i] + p) && ([i] + p)[1..] == p
  {
    var q := [i] + p;
    forall k | 0 <= k < |q| - 1
      ensures q[k + 1] in g[q[k]]
    {
      if k > 0 {
        assert q[k] == p[k - 1] && q[k + 1] == p[k];
      }
    }
  }

  /** On ascending links, if no body on any walk from i lists itself, the
      links are forward from i. */
  lemma {:induction false} NoSelfLoopForward(g: Graph, i: nat)
    requires Ascending(g) && i < |g|
    requires forall p :: Walk(g, p) && p[0] == i ==> p[|p| - 1] !in g[p[|p| - 1]]
    ensures ForwardFrom(g, i)
    decreases |g| - i
  {
    assert i !in g[i] by {
      assert Walk(g, [i]) && [i][0] == i;
    }
    forall k | 0 <= k < |g[i]|
      ensures i < g[i][k] < |g| && ForwardFrom(g, g[i][k])
    {
      var m := g[i][k];
      assert m in g[i];
      forall p | Walk(g, p) && p[0] == m
        ensures p[|p| - 1] !in g[p[|p| - 1]]
      {
        WalkCons(g, i, p);
        assert ([i] + p)[|[i] + p| - 1] == p[|p| - 1];
      }
      NoSelfLoopForward(g, m);
    }
  }

  /** Links forward from i leave no self-listing body on any walk from i. */
  lemma {:induction false} ForwardNoSelfLoop(g: Graph, i: nat, p: seq<nat>)
    requires ForwardFrom(g, i) && Walk(g, p) && p[0] == i
    ensures p[|p| - 1] !in g[p[|p| - 1]]
    decreases |p|
  {
    if |p| > 1 {
      var k :| 0 <= k < |g[i]| && g[i][k] == p[1];
      var q := p[1..];
      assert Walk(g, q) by {
        forall n | 0 <= n < |q| - 1
          ensures q[n + 1] in g[q[n]]
        {
          assert q[n] == p[n + 1] && q[n + 1] == p[n + 2];
        }
      }
      ForwardNoSelfLoop(g, p[1], q);
      assert q[|q| - 1] == p[|p| - 1];
    }
  }
}
