/**
 * The simulator's bookkeeping (CovidSim): the tally of the four infection
 * stages over the people, and the collision rule that spreads the
 * infection between the shapes of one collision.
 */
module Simulator {
  import opened Agents
  import opened Seqs

  /** How many entries of the list equal s. */
  function CountOf(ss: seq<string>, s: string): (n: nat)
    ensures n <= |ss|
  {
    if ss == [] then 0 else CountOf(ss[..|ss| - 1], s) + (if ss[|ss| - 1] == s then 1 else 0)
  }

  /** The three status strings get_status_counts names; anything else is counted as removed. */
  predicate NamedStatus(s: string) {
    s == "susceptible" || s == "infected" || s == "infectious"
  }

  /** How many entries of the list are none of the three named statuses. */
  function CountOthers(ss: seq<string>): (n: nat)
    ensures n <= |ss|
  {
    if ss == [] then 0 else CountOthers(ss[..|ss| - 1]) + (if NamedStatus(ss[|ss| - 1]) then 0 else 1)
  }

  /** CountOf is the multiplicity of s in the list. */
  lemma {:induction false} CountOfMultiset(ss: seq<string>, s: string)
    ensures CountOf(ss, s) == multiset(ss)[s]
  {
    if ss != [] {
      var init := ss[..|ss| - 1];
      assert ss == init + [ss[|ss| - 1]];
      CountOfMultiset(init, s);
    }
  }

  /** The four counts add up to the length of the list. */
  lemma {:induction false} CountsTotal(ss: seq<string>)
    ensures CountOf(ss, "susceptible") + CountOf(ss, "infected") + CountOf(ss, "infectious") + CountOthers(ss) == |ss|
  {
    if ss != [] {
      CountsTotal(ss[..|ss| - 1]);
    }
  }

  /** The statuses of a list of people, in order. */
  ghost function Statuses(people: seq<Person>): (ss: seq<string>)
    reads set p | p in people
    ensures |ss| == |people|
  {
    seq(|people|, i reads set p | p in people requires 0 <= i < |people| => people[i].status)
  }

  /** Whether some shape of the collision is a pymunk Segment. */
  predicate HasSegment(kinds: seq<ShapeKind>) {
    exists i :: 0 <= i < |kinds| && kinds[i] == Segment
  }

  /** Whether some shape of the collision carries the infectious tag. */
  predicate HasInfectious(densities: seq<real>) {
    exists i :: 0 <= i < |densities| && densities[i] == Infectious
  }

  /** Whether the collision spreads the infection: no segment among the shapes, and an infectious one. */
  predicate Spreads(kinds: seq<ShapeKind>, densities: seq<real>) {
    !HasSegment(kinds) && HasInfectious(densities)
  }

  /** Whether shape i catches the infection: the collision spreads, it is susceptible, and its draw succeeds. */
  predicate Catches(kinds: seq<ShapeKind>, densities: seq<real>, coins: seq<bool>, i: int)
    requires 0 <= i < |densities| == |coins|
  {
    Spreads(kinds, densities) && densities[i] == Susceptible && coins[i]
  }

  /** The densities after collision_begin: the shapes that catch the infection are tagged infected. */
  function SpreadDensities(kinds: seq<ShapeKind>, densities: seq<real>, coins: seq<bool>): (r: seq<real>)
    requires |densities| == |coins|
    ensures |r| == |densities|
    ensures forall i :: 0 <= i < |r| ==> r[i] == if Catches(kinds, densities, coins, i) then Infected else densities[i]
  {
    seq(|densities|, i requires 0 <= i < |densities| =>
          if Catches(kinds, densities, coins, i) then Infected else densities[i])
  }

  /** The positions of the shapes among the first k that catch the infection, in order. */
  function CaughtPositions(kinds: seq<ShapeKind>, densities: seq<real>, coins: seq<bool>,
                           positions: seq<Point>, k: nat): (r: seq<Point>)
    requires k <= |densities| == |coins| == |positions|
    ensures |r| <= k
  {
    if k == 0 then []
    else CaughtPositions(kinds, densities, coins, positions, k - 1)
         + (if Catches(kinds, densities, coins, k - 1) then [positions[k - 1]] else [])
  }

  /** How many of the first k shapes catch the infection. */
  function CaughtCount(kinds: seq<ShapeKind>, densities: seq<real>, coins: seq<bool>, k: nat): nat
    requires k <= |densities| == |coins|
  {
    if k == 0 then 0
    else CaughtCount(kinds, densities, coins, k - 1) + (if Catches(kinds, densities, coins, k - 1) then 1 else 0)
  }

  /** One collision point is recorded per shape that catches the infection, at that shape's position. */
  lemma {:induction false} CaughtPositionsCount(kinds: seq<ShapeKind>, densities: seq<real>, coins: seq<bool>,
                                                positions: seq<Point>, k: nat)
    requires k <= |densities| == |coins| == |positions|
    ensures |CaughtPositions(kinds, densities, coins, positions, k)| == CaughtCount(kinds, densities, coins, k)
    ensures forall p :: p in CaughtPositions(kinds, densities, coins, positions, k) <==>
              exists i :: 0 <= i < k && Catches(kinds, densities, coins, i) && positions[i] == p
  {
    if k > 0 {
      CaughtPositionsCount(kinds, densities, coins, positions, k - 1);
    }
  }

  /** With a segment among the shapes, or without an infectious one, nothing changes and nothing is recorded. */
  lemma {:induction false} NoSpreadNoChange(kinds: seq<ShapeKind>, densities: seq<real>, coins: seq<bool>,
                                            positions: seq<Point>, k: nat)
    requires k <= |densities| == |coins| == |positions|
    requires !Spreads(kinds, densities)
    ensures SpreadDensities(kinds, densities, coins) == densities
    ensures CaughtPositions(kinds, densities, coins, positions, k) == []
  {
    if k > 0 {
      NoSpreadNoChange(kinds, densities, coins, positions, k - 1);
    }
  }

  /** Only susceptible shapes change, each to the infected tag, and their number is the number of points recorded. */
  lemma SpreadChangesOnlySusceptible(kinds: seq<ShapeKind>, densities: seq<real>, coins: seq<bool>, i: int)
    requires |densities| == |coins| && 0 <= i < |densities|
    ensures var r := SpreadDensities(kinds, densities, coins);
            r[i] != densities[i] <==> densities[i] == Susceptible && coins[i] && Spreads(kinds, densities)
    ensures var r := SpreadDensities(kinds, densities, coins);
            r[i] != densities[i] ==> r[i] == Infected
  {
  }

  /** The classes of the shapes. */
  function Kinds(shapes: seq<Shape>): (ks: seq<ShapeKind>)
    ensures |ks| == |shapes| && forall i :: 0 <= i < |shapes| ==> ks[i] == shapes[i].kind
  {
    seq(|shapes|, i requires 0 <= i < |shapes| => shapes[i].kind)
  }

  /** The densities of the shapes. */
  ghost function Densities(shapes: seq<Shape>): (ds: seq<real>)
    reads set s | s in shapes
    ensures |ds| == |shapes| && forall i :: 0 <= i < |shapes| ==> ds[i] == shapes[i].density
  {
    seq(|shapes|, i reads set s | s in shapes requires 0 <= i < |shapes| => shapes[i].density)
  }

  /** The positions of the shapes' bodies. */
  ghost function Positions(shapes: seq<Shape>): (ps: seq<Point>)
    reads set s | s in shapes
    ensures |ps| == |shapes| && forall i :: 0 <= i < |shapes| ==> ps[i] == shapes[i].position
  {
    seq(|shapes|, i reads set s | s in shapes requires 0 <= i < |shapes| => shapes[i].position)
  }

  /** No shape is listed twice. */
  predicate DistinctShapes(shapes: seq<Shape>) {
    forall i, j :: 0 <= i < |shapes| && 0 <= j < |shapes| && i != j ==> shapes[i] != shapes[j]
  }

  class CovidSim {
    /** CovidSim.people. */
    var people: seq<Person>
    /** CovidSim.collision_points: where infecting collisions took place. */
    var collisionPoints: seq<Point>

    constructor ()
      ensures people == [] && collisionPoints == []
    {
      people := [];
      collisionPoints := [];
    }

    /**
     * CovidSim.collision_begin over the shapes of one collision, coins[i]
     * being the outcome of the draw `random() < infection_prob` for shape i
     * (the draw is made only for a susceptible shape of a spreading
     * collision). Always lets pymunk go on handling the collision.
     */
    method CollisionBegin(shapes: seq<Shape>, coins: seq<bool>) returns (r: bool)
      requires |coins| == |shapes| && DistinctShapes(shapes)
      modifies set s | s in shapes, this`collisionPoints
      ensures r
      ensures Densities(shapes) == SpreadDensities(Kinds(shapes), old(Densities(shapes)), coins)
      ensures collisionPoints == old(collisionPoints) +
                CaughtPositions(Kinds(shapes), old(Densities(shapes)), coins, Positions(shapes), |shapes|)
      ensures Positions(shapes) == old(Positions(shapes))
    {
      ghost var kinds, d0, p0 := Kinds(shapes), Densities(shapes), Positions(shapes);
      var involvesInfectedPerson := false;
      for i := 0 to |shapes|
        invariant forall j :: 0 <= j < i ==> kinds[j] != Segment
        invariant involvesInfectedPerson <==> exists j :: 0 <= j < i && d0[j] == Infectious
      {
        if shapes[i].kind == Segment {
          assert kinds[i] == Segment;
          NoSpreadNoChange(kinds, d0, coins, p0, |shapes|);
          return true;
        }
        if shapes[i].density == Infectious {
          involvesInfectedPerson := true;
        }
      }
      assert !HasSegment(kinds);
      if involvesInfectedPerson {
        SpreadAll(shapes, coins, kinds, d0, p0);
        assert Densities(shapes) == SpreadDensities(kinds, d0, coins);
        assert Positions(shapes) == p0;
      } else {
        NoSpreadNoChange(kinds, d0, coins, p0, |shapes|);
      }
      return true;
    }

    /** The second loop of collision_begin, once the collision is known to spread. */
    method SpreadAll(shapes: seq<Shape>, coins: seq<bool>, ghost kinds: seq<ShapeKind>,
                     ghost d0: seq<real>, ghost p0: seq<Point>)
      requires |coins| == |shapes| == |d0| == |p0| && DistinctShapes(shapes)
      requires forall j :: 0 <= j < |shapes| ==> shapes[j].density == d0[j] && shapes[j].position == p0[j]
      requires Spreads(kinds, d0)
      modifies set s | s in shapes, this`collisionPoints
      ensures forall j :: 0 <= j < |shapes| ==>
                shapes[j].density == SpreadDensities(kinds, d0, coins)[j] && shapes[j].position == p0[j]
      ensures collisionPoints == old(collisionPoints) + CaughtPositions(kinds, d0, coins, p0, |shapes|)
    {
      ghost var spread := SpreadDensities(kinds, d0, coins);
      assert forall j :: 0 <= j < |shapes| ==>
        (Catches(kinds, d0, coins, j) <==> d0[j] == Susceptible && coins[j]) &&
        spread[j] == if d0[j] == Susceptible && coins[j] then Infected else d0[j];
      for i := 0 to |shapes|
        invariant forall j :: 0 <= j < |shapes| ==>
                    shapes[j].position == p0[j] && shapes[j].density == if j < i then spread[j] else d0[j]
        invariant collisionPoints == old(collisionPoints) + CaughtPositions(kinds, d0, coins, p0, i)
      {
        var caught := CatchInfection(shapes[i], coins[i]);
        assert CaughtPositions(kinds, d0, coins, p0, i + 1) ==
               CaughtPositions(kinds, d0, coins, p0, i) + if caught then [shapes[i].position] else [];
        if caught {
          AppendAssoc(old(collisionPoints), CaughtPositions(kinds, d0, coins, p0, i), shapes[i].position);
          collisionPoints := collisionPoints + [shapes[i].position];
        }
      }
    }

    /** The test on one shape in collision_begin's second loop: a susceptible shape whose draw succeeds is tagged infected. */
    method CatchInfection(shape: Shape, coin: bool) returns (caught: bool)
      modifies shape
      ensures caught <==> old(shape.density) == Susceptible && coin
      ensures shape.density == if caught then Infected else old(shape.density)
      ensures shape.position == old(shape.position)
    {
      caught := false;
      if shape.density == Susceptible {
        if coin {
          shape.density := Infected;
          caught := true;
        }
      }
    }

    /**
     * CovidSim.get_status_counts: the number of susceptible, infected and
     * infectious people, and of everyone else (counted as removed).
     */
    method GetStatusCounts() returns (susceptible: nat, infected: nat, infectious: nat, removed: nat)
      ensures var ss := Statuses(people);
              susceptible == CountOf(ss, "susceptible") && infected == CountOf(ss, "infected") &&
              infectious == CountOf(ss, "infectious") && removed == CountOthers(ss)
      ensures susceptible + infected + infectious + removed == |people|
    {
      var statusList: seq<string> := [];
      for i := 0 to |people|
        invariant statusList == Statuses(people)[..i]
      {
        statusList := statusList + [people[i].status];
      }
      assert statusList == Statuses(people);
      susceptible, infected, infectious, removed := 0, 0, 0, 0;
      for i := 0 to |statusList|
        invariant susceptible == CountOf(statusList[..i], "susceptible")
        invariant infected == CountOf(statusList[..i], "infected")
        invariant infectious == CountOf(statusList[..i], "infectious")
        invariant removed == CountOthers(statusList[..i])
      {
        assert statusList[..i + 1][..i] == statusList[..i];
        var status := statusList[i];
        if status == "susceptible" {
          susceptible := susceptible + 1;
        } else if status == "infected" {
          infected := infected + 1;
        } else if status == "infectious" {
          infectious := infectious + 1;
        } else {
          removed := removed + 1;
        }
      }
      assert statusList[..|statusList|] == statusList;
      CountsTotal(statusList);
    }
  }
}
