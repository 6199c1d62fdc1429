/** Paths in a graph given by its successor sets. */
module Paths {

  datatype Graph<!T(==)> = Graph(next: T -> set<T>)

  ghost predicate IsPath<T>(graph: Graph<T>, from: T, to: T, path: seq<T>) {
    |path| > 0 && path[0] == from && path[|path| - 1] == to
    && forall i {:trigger path[i]} | 0 <= i < |path| - 1 :: path[i + 1] in graph.next(path[i])
  }

  ghost predicate Reachable<T(!new)>(graph: Graph<T>, from: T, to: T) {
    exists path :: IsPath(graph, from, to, path)
  }

  lemma ReachableSelf<T(!new)>(graph: Graph<T>, from: T)
    ensures Reachable(graph, from, from)
  {
    assert IsPath(graph, from, from, [from]);
  }

  lemma ReachableNext<T(!new)>(graph: Graph<T>, from: T, mid: T, to: T)
    requires Reachable(graph, from, mid) && to in graph.next(mid)
    ensures Reachable(graph, from, to)
  {
    var path :| IsPath(graph, from, mid, path);
    assert IsPath(graph, from, to, path + [to]);
  }

  /** A set that holds the start and is closed under successors holds everything in reach. */
  lemma ClosedHoldsReachable<T(!new)>(graph: Graph<T>, from: T, to: T, s: iset<T>)
    requires from in s && (forall u :: u in s ==> forall w :: w in graph.next(u) ==> w in s)
    requires Reachable(graph, from, to)
    ensures to in s
  {
    var path :| IsPath(graph, from, to, path);
    var i := 0;
    while i < |path| - 1
      invariant 0 <= i <= |path| - 1 && path[i] in s
    {
      assert path[i + 1] in graph.next(path[i]);
      i := i + 1;
    }
  }
}
