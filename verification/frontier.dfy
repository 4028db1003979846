/**
 * The insertion-ordered frontier shared by both searches: picking the
 * candidate with the least score (the `reduce` over `Array.from(set)`),
 * and the uniform-cost queue as the node list minus the finalised nodes.
 */
module Frontier {
  import opened Graph

  /**
   * `candidates.reduce((min, n) => score[n] < score[min] ? n : min)`: the index
   * of the first candidate whose score is least. Because the comparison is a
   * strict `<`, an earlier candidate wins every tie.
   */
  method SelectMin(candidates: seq<string>, score: map<string, Cost>) returns (k: nat)
    requires |candidates| > 0
    requires forall n :: n in candidates ==> n in score
    ensures k < |candidates|
    ensures forall j :: 0 <= j < |candidates| ==> AtMost(score[candidates[k]], score[candidates[j]])
    ensures forall j :: 0 <= j < k ==> Below(score[candidates[k]], score[candidates[j]])
  {
    k := 0;
    for i := 1 to |candidates|
      invariant k < i
      invariant forall j :: 0 <= j < i ==> AtMost(score[candidates[k]], score[candidates[j]])
      invariant forall j :: 0 <= j < k ==> Below(score[candidates[k]], score[candidates[j]])
    {
      if Below(score[candidates[i]], score[candidates[k]]) {
        k := i;
      }
    }
  }

  /**
   * The uniform-cost `queue`: built from the node ids in node-list order, it
   * only ever loses the nodes that get finalised, so it is the node list with
   * the finalised nodes filtered out, in the same order.
   */
  function Unvisited(ids: seq<string>, visited: set<string>): (q: seq<string>)
    ensures |q| <= |ids|
  {
    if ids == [] then []
    else (if ids[0] in visited then [] else [ids[0]]) + Unvisited(ids[1..], visited)
  }

  /** The queue holds exactly the listed nodes that are not finalised. */
  lemma {:induction false} UnvisitedMembers(ids: seq<string>, visited: set<string>)
    ensures forall n :: n in Unvisited(ids, visited) <==> n in ids && n !in visited
  {
    if ids != [] {
      UnvisitedMembers(ids[1..], visited);
      assert forall n :: n in ids <==> n == ids[0] || n in ids[1..];
    }
  }

  /** Before anything is finalised the queue is the whole node list. */
  lemma {:induction false} UnvisitedInitially(ids: seq<string>)
    ensures Unvisited(ids, {}) == ids
  {
    if ids != [] {
      UnvisitedInitially(ids[1..]);
    }
  }

  /** Finalising a node that is not in the list leaves the queue as it was. */
  lemma {:induction false} UnvisitedIgnoresAbsent(ids: seq<string>, visited: set<string>, c: string)
    requires c !in ids
    ensures Unvisited(ids, visited + {c}) == Unvisited(ids, visited)
  {
    if ids != [] {
      UnvisitedIgnoresAbsent(ids[1..], visited, c);
    }
  }

  /** Over a duplicate-free node list the queue is duplicate-free. */
  lemma {:induction false} UnvisitedDistinct(ids: seq<string>, visited: set<string>)
    requires Distinct(ids)
    ensures Distinct(Unvisited(ids, visited))
  {
    if ids != [] {
      assert Distinct(ids[1..]);
      UnvisitedDistinct(ids[1..], visited);
      UnvisitedMembers(ids[1..], visited);
      assert ids[0] !in ids[1..];
    }
  }

  /**
   * `queue.delete(current)`: finalising the k-th queued node removes exactly
   * that position and keeps the order of the others.
   */
  lemma {:induction false} UnvisitedAfterVisit(ids: seq<string>, visited: set<string>, k: nat)
    requires Distinct(ids)
    requires k < |Unvisited(ids, visited)|
    ensures var q := Unvisited(ids, visited);
      Unvisited(ids, visited + {q[k]}) == q[..k] + q[k + 1..]
  {
    var q := Unvisited(ids, visited);
    var rest := Unvisited(ids[1..], visited);
    assert Distinct(ids[1..]);
    if ids[0] in visited {
      assert q == rest;
      UnvisitedAfterVisit(ids[1..], visited, k);
    } else if k == 0 {
      assert ids[0] !in ids[1..];
      UnvisitedIgnoresAbsent(ids[1..], visited, ids[0]);
    } else {
      UnvisitedMembers(ids[1..], visited);
      assert ids[0] !in ids[1..] && rest[k - 1] in ids[1..];
      UnvisitedAfterVisit(ids[1..], visited, k - 1);
      VisitLater(ids, visited, k);
    }
  }

  /** The step of the induction above for a position after an unfinalised head. */
  lemma VisitLater(ids: seq<string>, visited: set<string>, k: nat)
    requires ids != [] && ids[0] !in visited && 0 < k < |Unvisited(ids, visited)|
    requires var rest := Unvisited(ids[1..], visited);
      && rest[k - 1] != ids[0]
      && Unvisited(ids[1..], visited + {rest[k - 1]}) == rest[..k - 1] + rest[k..]
    ensures var q := Unvisited(ids, visited);
      Unvisited(ids, visited + {q[k]}) == q[..k] + q[k + 1..]
  {
    var rest := Unvisited(ids[1..], visited);
    assert Unvisited(ids, visited) == [ids[0]] + rest;
    DropAfterHead(ids[0], rest, k);
  }

  /** Removing position `k > 0` of `[h] + rest` removes position `k - 1` of `rest`. */
  lemma DropAfterHead(h: string, rest: seq<string>, k: nat)
    requires 0 < k <= |rest|
    ensures var q := [h] + rest;
      q[k] == rest[k - 1] && q[..k] + q[k + 1..] == [h] + (rest[..k - 1] + rest[k..])
  {
    var q := [h] + rest;
    assert q[..k] == [h] + rest[..k - 1];
    assert q[k + 1..] == rest[k..];
  }

  /**
   * `openSet.delete(current)` on a duplicate-free frontier: dropping position
   * `k` removes exactly that id and keeps the others without duplicates.
   */
  lemma DropDistinct(s: seq<string>, k: nat)
    requires Distinct(s) && k < |s|
    ensures Distinct(s[..k] + s[k + 1..])
    ensures forall n :: n in s[..k] + s[k + 1..] <==> n in s && n != s[k]
  {
    var r := s[..k] + s[k + 1..];
    assert forall i :: 0 <= i < |r| ==> r[i] == if i < k then s[i] else s[i + 1];
    forall n | n in s && n != s[k]
      ensures n in r
    {
      var i :| 0 <= i < |s| && s[i] == n;
      assert r[if i < k then i else i - 1] == n;
    }
  }
}
