/** Reachability in a directed graph, by paths. */
module Reachability {

  ghost predicate IsPath<N>(edge: (N, N) -> bool, path: seq<N>) {
    path != [] && forall i | 0 < i < |path| :: edge(path[i - 1], path[i])
  }

  ghost predicate Reaches<N(!new)>(edge: (N, N) -> bool, from: N, to: N) {
    exists path :: IsPath(edge, path) && path[0] == from && path[|path| - 1] == to
  }

  ghost predicate IsClosed<N(!new)>(edge: (N, N) -> bool, nodes: set<N>) {
    forall x, y :: x in nodes && edge(x, y) ==> y in nodes
  }

  lemma ReachesSelf<N(!new)>(edge: (N, N) -> bool, x: N)
    ensures Reaches(edge, x, x)
  {
    assert IsPath(edge, [x]);
  }

  lemma ReachesStep<N(!new)>(edge: (N, N) -> bool, from: N, x: N, y: N)
    requires Reaches(edge, from, x) && edge(x, y)
    ensures Reaches(edge, from, y)
  {
    var path :| IsPath(edge, path) && path[0] == from && path[|path| - 1] == x;
    assert IsPath(edge, path + [y]);
    assert (path + [y])[|path|] == y;
  }

  lemma {:induction false} PathStaysInside<N(!new)>(edge: (N, N) -> bool, nodes: set<N>, path: seq<N>)
    requires IsClosed(edge, nodes) && IsPath(edge, path) && path[0] in nodes
    ensures path[|path| - 1] in nodes
  {
    if |path| > 1 {
      var init := path[..|path| - 1];
      PathStaysInside(edge, nodes, init);
      assert edge(path[|path| - 2], path[|path| - 1]);
    }
  }

  /** A closed set that holds the start and only reachable nodes holds exactly those. */
  lemma ClosedIsReachable<N(!new)>(edge: (N, N) -> bool, from: N, nodes: set<N>)
    requires from in nodes && IsClosed(edge, nodes) && forall x | x in nodes :: Reaches(edge, from, x)
    ensures forall x :: x in nodes <==> Reaches(edge, from, x)
  {
    forall x | Reaches(edge, from, x) ensures x in nodes {
      var path :| IsPath(edge, path) && path[0] == from && path[|path| - 1] == x;
      PathStaysInside(edge, nodes, path);
    }
  }
}
