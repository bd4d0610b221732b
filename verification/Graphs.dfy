/** Reachability in a directed graph given by its successor function. The module loader, the
    static load closure and the dependency resolver are all walks over such graphs. */
module Graphs {

  ghost predicate IsWalk<N(!new)>(succ: N -> iset<N>, walk: seq<N>) {
    |walk| > 0 && forall i :: 1 <= i < |walk| ==> walk[i] in succ(walk[i - 1])
  }

  /** `b` can be reached from `a` in zero or more steps. */
  ghost predicate Reaches<N(!new)>(succ: N -> iset<N>, a: N, b: N) {
    exists walk :: IsWalk(succ, walk) && walk[0] == a && walk[|walk| - 1] == b
  }

  /** `b` can be reached from `a` in one or more steps. */
  ghost predicate ReachesOn<N(!new)>(succ: N -> iset<N>, a: N, b: N) {
    exists next :: next in succ(a) && Reaches(succ, next, b)
  }

  ghost predicate OnCycle<N(!new)>(succ: N -> iset<N>, a: N) {
    ReachesOn(succ, a, a)
  }

  ghost predicate Closed<N(!new)>(succ: N -> iset<N>, nodes: iset<N>) {
    forall n :: n in nodes ==> succ(n) <= nodes
  }

  lemma ReachesSelf<N(!new)>(succ: N -> iset<N>, a: N)
    ensures Reaches(succ, a, a)
  {
    assert IsWalk(succ, [a]);
  }

  lemma ReachesThen<N(!new)>(succ: N -> iset<N>, a: N, b: N, c: N)
    requires Reaches(succ, a, b) && c in succ(b)
    ensures Reaches(succ, a, c)
  {
    var walk :| IsWalk(succ, walk) && walk[0] == a && walk[|walk| - 1] == b;
    assert IsWalk(succ, walk + [c]);
  }

  lemma {:induction false} ReachesVia<N(!new)>(succ: N -> iset<N>, a: N, b: N, walk: seq<N>)
    requires Reaches(succ, a, b) && IsWalk(succ, walk) && walk[0] == b
    ensures Reaches(succ, a, walk[|walk| - 1])
    decreases |walk|
  {
    if |walk| > 1 {
      ReachesThen(succ, a, b, walk[1]);
      ReachesVia(succ, a, walk[1], walk[1..]);
    }
  }

  lemma ReachesTrans<N(!new)>(succ: N -> iset<N>, a: N, b: N, c: N)
    requires Reaches(succ, a, b) && Reaches(succ, b, c)
    ensures Reaches(succ, a, c)
  {
    var walk :| IsWalk(succ, walk) && walk[0] == b && walk[|walk| - 1] == c;
    ReachesVia(succ, a, b, walk);
  }

  lemma ReachesOnTrans<N(!new)>(succ: N -> iset<N>, a: N, b: N, c: N)
    requires ReachesOn(succ, a, b) && Reaches(succ, b, c)
    ensures ReachesOn(succ, a, c)
  {
    var next :| next in succ(a) && Reaches(succ, next, b);
    ReachesTrans(succ, next, b, c);
  }

  /** A closed set contains everything reachable from its members. */
  lemma {:induction false} ClosedUnderWalks<N(!new)>(succ: N -> iset<N>, nodes: iset<N>, walk: seq<N>)
    requires Closed(succ, nodes) && IsWalk(succ, walk) && walk[0] in nodes
    ensures walk[|walk| - 1] in nodes
    decreases |walk|
  {
    if |walk| > 1 {
      assert walk[1] in succ(walk[0]);
      assert IsWalk(succ, walk[1..]);
      ClosedUnderWalks(succ, nodes, walk[1..]);
    }
  }

  lemma ClosedUnderReach<N(!new)>(succ: N -> iset<N>, nodes: iset<N>, a: N, b: N)
    requires Closed(succ, nodes) && a in nodes && Reaches(succ, a, b)
    ensures b in nodes
  {
    var walk :| IsWalk(succ, walk) && walk[0] == a && walk[|walk| - 1] == b;
    ClosedUnderWalks(succ, nodes, walk);
  }

  ghost function Nodes<N(!new)>(order: seq<N>): iset<N> {
    iset n | n in order
  }

  /** In `order`, every node comes after all its successors. */
  ghost predicate SuccessorsFirst<N(!new)>(succ: N -> iset<N>, order: seq<N>) {
    && (forall i, j :: 0 <= i < j < |order| ==> order[i] != order[j])
    && forall i :: 0 <= i < |order| ==> forall n :: n in succ(order[i]) ==> n in order[..i]
  }

  /** The nodes of such an order are closed, and none of them is on a cycle. */
  lemma OrderedIsAcyclic<N(!new)>(succ: N -> iset<N>, order: seq<N>, n: N)
    requires SuccessorsFirst(succ, order) && n in order
    ensures !OnCycle(succ, n)
  {
    if OnCycle(succ, n) {
      var i :| 0 <= i < |order| && order[i] == n;
      var next :| next in succ(n) && Reaches(succ, next, n);
      var before := Nodes(order[..i]);
      OrderedIsClosed(succ, order, i);
      ClosedUnderReach(succ, before, next, n);
    }
  }

  lemma OrderedIsClosed<N(!new)>(succ: N -> iset<N>, order: seq<N>, count: nat)
    requires SuccessorsFirst(succ, order) && count <= |order|
    ensures Closed(succ, Nodes(order[..count]))
  {
    forall m, next | m in order[..count] && next in succ(m) ensures next in order[..count] {
      var i :| 0 <= i < count && order[i] == m;
      assert next in order[..i];
    }
  }

  lemma OrderedSnoc<N(!new)>(succ: N -> iset<N>, order: seq<N>, n: N)
    requires SuccessorsFirst(succ, order) && n !in order
    requires forall m :: m in succ(n) ==> m in order
    ensures SuccessorsFirst(succ, order + [n])
  {
    var longer := order + [n];
    forall i, m | 0 <= i < |longer| && m in succ(longer[i]) ensures m in longer[..i] {
      if i < |order| {
        assert longer[..i] == order[..i] && m in order[..i];
      } else {
        assert longer[..i] == order;
      }
    }
  }
}
