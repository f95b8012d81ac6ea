/**
  The simulation: a list of swarms advanced one tick at a time by three
  passes over every swarm: fight, then movement, then clearing out the
  destroyed ships.
*/
module Simulations {
  import opened Numeric
  import opened Ships
  import opened Swarms

  datatype SimulationConfig = SimulationConfig(
    ship: ShipConfig,
    swarm: SwarmConfig,
    maxSwarms: U32,
    initSwarms: U32)

  /** `SimulationConfig::default`: default ship and swarm settings, two of at most ten swarms. */
  function DefaultSimulationConfig(): (c: SimulationConfig)
    ensures c.ship == DefaultShipConfig() && c.swarm == DefaultSwarmConfig()
    ensures 0 < c.initSwarms <= c.maxSwarms
  {
    SimulationConfig(DefaultShipConfig(), DefaultSwarmConfig(), 10, 2)
  }

  /** No ship is in both lists. */
  ghost predicate Disjoint(a: seq<Ship>, b: seq<Ship>) {
    forall s :: s in a ==> s !in b
  }

  /** `s` belongs to none of the swarms. */
  ghost predicate Unowned(swarms: seq<Swarm>, s: Ship)
    reads set w | w in swarms
  {
    forall k :: 0 <= k < |swarms| ==> s !in swarms[k].ships
  }

  class Simulation {
    var swarms: seq<Swarm>
    const config: SimulationConfig
    /** Every ship the swarms may own; the frame of the passes of `step`. */
    ghost var fleet: set<Ship>

    /** Every swarm appears once, is valid, and no ship belongs to two swarms. */
    ghost predicate Valid()
      reads this, set w | w in swarms
    {
      && (forall i, j :: 0 <= i < j < |swarms| ==> swarms[i] != swarms[j])
      && (forall w :: w in swarms ==> w.Valid())
      && (forall i, j :: 0 <= i < |swarms| && 0 <= j < |swarms| && i != j ==>
            Disjoint(swarms[i].ships, swarms[j].ships))
      && (forall k, s :: 0 <= k < |swarms| && s in swarms[k].ships ==> s in fleet)
    }

    /** `Simulation::new`: no swarms yet, and the given configuration. */
    constructor New(config: SimulationConfig)
      ensures Valid()
      ensures swarms == [] && this.config == config
    {
      swarms := [];
      this.config := config;
      fleet := {};
    }

    /**
      `step`: fight in every swarm, then move every ship, then drop the
      destroyed ships of every swarm. The list of swarms is unchanged.
    */
    method Step(lib: MathLib)
      requires Valid() && lib.Lawful()
      modifies (set w | w in swarms), fleet
      ensures swarms == old(swarms) && Valid()
      ensures forall k, s :: 0 <= k < |swarms| && s in old(swarms[k].ships) ==> Moved(lib, s)
      ensures forall k :: 0 <= k < |swarms| ==> swarms[k].ships == Survivors(old(swarms[k].ships))
      ensures forall k :: 0 <= k < |swarms| ==>
        swarms[k].pos == old(swarms[k].pos) && swarms[k].targetPos == old(swarms[k].targetPos)
        && swarms[k].targetDir == old(swarms[k].targetDir)
      ensures forall k, s :: 0 <= k < |swarms| && s in swarms[k].ships ==> 0 < s.health
      ensures forall s :: old(s in fleet && Unowned(swarms, s)) ==> unchanged(s)
    {
      FightAll();
      label Fought:
      MoveAll(lib);
      forall k, s | 0 <= k < |swarms| && s in old(swarms[k].ships)
        ensures Moved(lib, s)
      {
        assert Moved@Fought(lib, s);
        assert old@Fought(s.pos) == old(s.pos) && old@Fought(s.vel) == old(s.vel);
      }
      FinalizeAll();
      forall s | old(s in fleet && Unowned(swarms, s))
        ensures unchanged(s)
      {
        assert old@Fought(s in fleet && Unowned(swarms, s));
      }
    }

    /** The first pass of `step`: every swarm fights; no ship changes state. */
    method FightAll()
      requires Valid()
    {
      for k := 0 to |swarms| {
        swarms[k].Fight();
      }
    }

    /** The second pass of `step`: every swarm moves its ships. */
    method MoveAll(lib: MathLib)
      requires Valid() && lib.Lawful()
      modifies fleet
      ensures swarms == old(swarms)
      ensures forall k :: 0 <= k < |swarms| ==> swarms[k].ships == old(swarms[k].ships)
      ensures forall k, s :: 0 <= k < |swarms| && s in swarms[k].ships ==> Moved(lib, s)
      ensures forall s :: old(s in fleet && Unowned(swarms, s)) ==> unchanged(s)
    {
      for k := 0 to |swarms|
        invariant forall j, s :: 0 <= j < k && s in swarms[j].ships ==> Moved(lib, s)
        invariant forall j, s :: k <= j < |swarms| && s in swarms[j].ships ==> unchanged(s)
        invariant forall s :: s in fleet && Unowned(swarms, s) ==> unchanged(s)
      {
        swarms[k].Movement(lib);
      }
    }

    /** The third pass of `step`: every swarm drops its destroyed ships. */
    method FinalizeAll()
      requires Valid()
      modifies set w | w in swarms
      ensures Valid()
      ensures forall k :: 0 <= k < |swarms| ==> swarms[k].ships == old(Survivors(swarms[k].ships))
      ensures forall k :: 0 <= k < |swarms| ==>
        swarms[k].pos == old(swarms[k].pos) && swarms[k].targetPos == old(swarms[k].targetPos)
        && swarms[k].targetDir == old(swarms[k].targetDir)
    {
      for k := 0 to |swarms|
        invariant forall j :: 0 <= j < k ==> swarms[j].ships == old(Survivors(swarms[j].ships))
        invariant forall j :: k <= j < |swarms| ==> swarms[j].ships == old(swarms[j].ships)
        invariant forall j :: 0 <= j < |swarms| ==>
          swarms[j].pos == old(swarms[j].pos) && swarms[j].targetPos == old(swarms[j].targetPos)
          && swarms[j].targetDir == old(swarms[j].targetDir)
        invariant forall w :: w in swarms ==> w.Valid()
        invariant forall j :: 0 <= j < |swarms| ==> forall s :: s in swarms[j].ships ==> s in old(swarms[j].ships)
      {
        swarms[k].Finalize();
      }
      forall i, j | 0 <= i < |swarms| && 0 <= j < |swarms| && i != j
        ensures Disjoint(swarms[i].ships, swarms[j].ships)
      {
        assert old(Disjoint(swarms[i].ships, swarms[j].ships));
      }
    }
  }
}
