/**
  A swarm: a group of ships that share a position, a target and a heading,
  moved together tick by tick and cleared of destroyed ships.
*/
module Swarms {
  import opened Numeric
  import opened Vectors
  import opened Ships

  datatype SwarmConfig = SwarmConfig(maxShips: U32, visionRange: real)

  /** `SwarmConfig::default`. */
  function DefaultSwarmConfig(): (c: SwarmConfig)
    ensures 0 < c.maxShips && 0.0 < c.visionRange
  {
    SwarmConfig(20, 200.0)
  }

  /** No ship appears twice: a `Vec<Ship>` owns each of its ships. */
  ghost predicate Distinct(ships: seq<Ship>) {
    forall i, j :: 0 <= i < j < |ships| ==> ships[i] != ships[j]
  }

  /** `retain(|ship| ship.health > 0)`: the ships still alive, in their order. */
  function Survivors(ships: seq<Ship>): (r: seq<Ship>)
    reads set s | s in ships
    ensures |r| <= |ships|
    ensures forall s :: s in r ==> s in ships && 0 < s.health
    ensures forall s :: s in ships && 0 < s.health ==> s in r
  {
    if ships == [] then []
    else if 0 < ships[0].health then [ships[0]] + Survivors(ships[1..])
    else Survivors(ships[1..])
  }

  /** Filtering a concatenation filters each part and keeps them in order. */
  lemma {:induction false} SurvivorsAppend(a: seq<Ship>, b: seq<Ship>)
    ensures Survivors(a + b) == Survivors(a) + Survivors(b)
  {
    if a != [] {
      assert (a + b)[1..] == a[1..] + b;
      SurvivorsAppend(a[1..], b);
    } else {
      assert a + b == b;
    }
  }

  /** A lone ship is kept exactly when it is alive. */
  lemma SurvivorsSingle(s: Ship)
    ensures Survivors([s]) == if 0 < s.health then [s] else []
  {
  }

  /** Filtering twice is filtering once. */
  lemma {:induction false} SurvivorsIdempotent(ships: seq<Ship>)
    ensures Survivors(Survivors(ships)) == Survivors(ships)
  {
    if ships != [] {
      SurvivorsIdempotent(ships[1..]);
      if 0 < ships[0].health {
        var rest := Survivors(ships[1..]);
        assert ([ships[0]] + rest)[1..] == rest;
      }
    }
  }

  /** When every ship is alive nothing is removed. */
  lemma {:induction false} SurvivorsAllAlive(ships: seq<Ship>)
    requires forall s :: s in ships ==> 0 < s.health
    ensures Survivors(ships) == ships
  {
    if ships != [] {
      SurvivorsAllAlive(ships[1..]);
      assert [ships[0]] + ships[1..] == ships;
    }
  }

  /** Filtering a list without repeats gives a list without repeats. */
  lemma {:induction false} SurvivorsDistinct(ships: seq<Ship>)
    requires Distinct(ships)
    ensures Distinct(Survivors(ships))
  {
    if ships != [] {
      SurvivorsDistinct(ships[1..]);
      var rest := Survivors(ships[1..]);
      if 0 < ships[0].health {
        assert ships[0] !in ships[1..];
        assert ships[0] !in rest;
        var r := [ships[0]] + rest;
        forall i, j | 0 <= i < j < |r|
          ensures r[i] != r[j]
        {
          if i == 0 {
            assert r[j] in rest;
          } else {
            assert r[i] == rest[i - 1] && r[j] == rest[j - 1];
          }
        }
      }
    }
  }

  class Swarm {
    var ships: seq<Ship>
    var pos: Vec2
    var targetPos: Vec2
    var targetDir: real
    const config: SwarmConfig

    /** The swarm owns its ships. */
    ghost predicate Valid()
      reads this
    {
      Distinct(ships)
    }

    /** `Swarm::spawn`: no ships yet, aiming at its own position, heading 0. */
    constructor Spawn(pos: Vec2, config: SwarmConfig)
      ensures Valid()
      ensures ships == [] && this.pos == pos && targetPos == pos && targetDir == 0.0
      ensures this.config == config
    {
      ships := [];
      this.pos := pos;
      targetPos := pos;
      targetDir := 0.0;
      this.config := config;
    }

    /** `fight`: every ship fights, which changes nothing. */
    method Fight()
      requires Valid()
    {
      for i := 0 to |ships| {
        ships[i].Fight();
      }
    }

    /** `movement`: every ship makes one movement tick; the list itself is untouched. */
    method Movement(lib: MathLib)
      requires Valid() && lib.Lawful()
      modifies set s | s in ships
      ensures ships == old(ships)
      ensures forall s :: s in ships ==> Moved(lib, s)
    {
      for i := 0 to |ships|
        invariant forall j :: 0 <= j < i ==> Moved(lib, ships[j])
        invariant forall j :: i <= j < |ships| ==> unchanged(ships[j])
      {
        ships[i].Movement(lib);
      }
    }

    /** `finalize`: only the ships still alive are kept, in their order. */
    method Finalize()
      requires Valid()
      modifies this
      ensures Valid()
      ensures ships == old(Survivors(ships))
      ensures pos == old(pos) && targetPos == old(targetPos) && targetDir == old(targetDir)
    {
      SurvivorsDistinct(ships);
      ships := Survivors(ships);
    }
  }
}
