/**
 * The search frontier of the heatmap build: Node (a cell and its distance)
 * and Queue, a FIFO list of pending nodes with the set of their coordinates,
 * so that a coordinate is never pending twice.
 */
module Frontier {
  import opened Grid

  /** A cell paired with the distance recorded for it. */
  datatype Node = Node(x: int, y: int, distance: real) {
    function Coordinates(): Coord {
      (x, y)
    }
  }

  /** The coordinates of a list of nodes. */
  function CoordSet(nodes: seq<Node>): set<Coord> {
    set n | n in nodes :: n.Coordinates()
  }

  /** No two nodes of the list share a coordinate. */
  predicate DistinctCoords(nodes: seq<Node>) {
    forall i, j :: 0 <= i < j < |nodes| ==> nodes[i].Coordinates() != nodes[j].Coordinates()
  }

  /** The list in the opposite order. */
  function Reversed<T>(s: seq<T>): (r: seq<T>)
    ensures |r| == |s|
  {
    if s == [] then [] else [s[|s| - 1]] + Reversed(s[..|s| - 1])
  }

  /** Putting an element at the front of a list puts it at the back of the reversed list. */
  lemma {:induction false} ReversedCons<T>(x: T, s: seq<T>)
    ensures Reversed([x] + s) == Reversed(s) + [x]
  {
    if s != [] {
      assert ([x] + s)[..|s|] == [x] + s[..|s| - 1];
      ReversedCons(x, s[..|s| - 1]);
    }
  }

  /**
   * Popping the last element of a list takes the first element of the
   * reversed list, and leaves the rest of it in order.
   */
  lemma ReversedPop<T>(s: seq<T>)
    requires s != []
    ensures Reversed(s)[0] == s[|s| - 1]
    ensures Reversed(s)[1..] == Reversed(s[..|s| - 1])
  {
  }

  /** Putting an element at the back of a list puts it at the front of the reversed list. */
  lemma ReversedSnoc<T>(s: seq<T>, x: T)
    ensures Reversed(s + [x]) == [x] + Reversed(s)
  {
    assert (s + [x])[..|s|] == s;
  }

  /** Reversing a concatenation reverses and swaps its two parts. */
  lemma {:induction false} ReversedAppend<T>(s: seq<T>, t: seq<T>)
    ensures Reversed(s + t) == Reversed(t) + Reversed(s)
    decreases |t|
  {
    if t == [] {
      assert s + t == s;
    } else {
      var t', x := t[..|t| - 1], t[|t| - 1];
      assert t == t' + [x];
      calc {
        Reversed(s + t);
        { assert s + t == (s + t') + [x]; }
        Reversed((s + t') + [x]);
        { ReversedSnoc(s + t', x); }
        [x] + Reversed(s + t');
        { ReversedAppend(s, t'); }
        [x] + (Reversed(t') + Reversed(s));
        ([x] + Reversed(t')) + Reversed(s);
        { ReversedSnoc(t', x); }
        Reversed(t) + Reversed(s);
      }
    }
  }

  /** Element k of the reversed list is element |s| - 1 - k of the list. */
  lemma {:induction false} ReversedAt<T>(s: seq<T>, k: nat)
    requires k < |s|
    ensures Reversed(s)[k] == s[|s| - 1 - k]
  {
    if k > 0 {
      ReversedAt(s[..|s| - 1], k - 1);
    }
  }

  /** A deduplicating FIFO of nodes: add_node prepends, remove_node pops the last element. */
  class Queue {
    var queue: seq<Node>
    var enqueuedCoordinates: set<Coord>

    /** The set holds exactly the coordinates of the list, and no coordinate is listed twice. */
    ghost predicate Valid()
      reads this
    {
      enqueuedCoordinates == CoordSet(queue) && DistinctCoords(queue)
    }

    /** Queue.__init__: the search starts from the start node alone. */
    constructor (startNode: Node)
      ensures Valid()
      ensures queue == [startNode] && enqueuedCoordinates == {startNode.Coordinates()}
    {
      queue := [startNode];
      enqueuedCoordinates := {startNode.Coordinates()};
    }

    /** Queue.add_node: a node whose coordinate is already pending is dropped. */
    method AddNode(node: Node)
      requires Valid()
      modifies this
      ensures Valid()
      ensures node.Coordinates() in old(enqueuedCoordinates) ==>
                queue == old(queue) && enqueuedCoordinates == old(enqueuedCoordinates)
      ensures node.Coordinates() !in old(enqueuedCoordinates) ==>
                queue == [node] + old(queue) &&
                enqueuedCoordinates == old(enqueuedCoordinates) + {node.Coordinates()}
    {
      if node.Coordinates() !in enqueuedCoordinates {
        queue := [node] + queue;
        enqueuedCoordinates := enqueuedCoordinates + {node.Coordinates()};
      }
    }

    /** Queue.remove_node: the node that has waited longest leaves the list and its coordinate the set. */
    method RemoveNode() returns (node: Node)
      requires Valid() && queue != []
      modifies this
      ensures Valid()
      ensures node == old(queue)[|old(queue)| - 1]
      ensures queue == old(queue)[..|old(queue)| - 1]
      ensures enqueuedCoordinates == old(enqueuedCoordinates) - {node.Coordinates()}
      ensures node.Coordinates() in old(enqueuedCoordinates)
    {
      node := queue[|queue| - 1];
      var rest := queue[..|queue| - 1];
      assert queue == rest + [node];
      assert CoordSet(queue) == CoordSet(rest) + {node.Coordinates()};
      assert node.Coordinates() !in CoordSet(rest) by {
        forall m | m in rest ensures m.Coordinates() != node.Coordinates() {
          var i :| 0 <= i < |rest| && rest[i] == m;
          assert queue[i] == m;
        }
      }
      queue := rest;
      enqueuedCoordinates := enqueuedCoordinates - {node.Coordinates()};
    }

    /** Queue.has_elements. */
    method HasElements() returns (b: bool)
      ensures b <==> queue != []
    {
      b := |queue| > 0;
    }
  }
}
