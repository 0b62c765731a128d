/** The engine catalogue and the two random gene generators of
    rocket_utils.py. */
module RocketUtils {
  import opened Wrappers
  import opened Random

  /** One catalogue entry. The numeric data are floats in the source; here they
      are exact reals, and nothing in the model computes with them. The last
      field is the one the source stores under the key "asp_vac". */
  datatype Engine = Engine(name: string, mass: real, thrust: real, fuelFlow: real,
                           ispAtm: real, ispVac: real)

  const Engines: map<int, Engine> := map[
    1 := Engine("LV-T30", 1.25, 215.0, 0.0685, 320.0, 370.0),
    2 := Engine("LV-909", 0.5, 50.0, 0.0170, 300.0, 390.0),
    3 := Engine("Poodle", 2.5, 220.0, 0.0831, 270.0, 390.0),
    4 := Engine("Mainsail", 6.0, 1500.0, 0.5461, 280.0, 330.0),
    5 := Engine("Atomic", 2.25, 60.0, 0.0278, 220.0, 800.0)
  ]

  /** Upper bounds of the two generators' inclusive ranges; both start at 1. */
  const EngineDrawMax := 20
  const FuelDrawMax := 20

  predicate IsEngineDraw(id: int) { 1 <= id <= EngineDrawMax }
  predicate IsFuelDraw(size: int) { 1 <= size <= FuelDrawMax }

  /** The catalogue's ids are exactly 1 to 5. */
  lemma CatalogueIds()
    ensures Engines.Keys == {1, 2, 3, 4, 5}
  {
  }

  /** `lookup_engine`: the catalogue entry for an id; `engines[id]` raises
      KeyError for any other id, modelled as None. */
  function LookupEngine(id: int): (r: Option<Engine>)
    ensures r.Some? <==> 1 <= id <= 5
    ensures r.Some? ==> id in Engines && r.value == Engines[id]
  {
    if id in Engines then Some(Engines[id]) else None
  }

  /** `random_engine`: some id in [1, 20]. */
  method RandomEngine() returns (id: int)
    ensures IsEngineDraw(id)
  {
    id := RandInt(1, EngineDrawMax);
  }

  /** `random_fuel`: some tank size in [1, 20]. */
  method RandomFuel() returns (size: int)
    ensures IsFuelDraw(size)
  {
    size := RandInt(1, FuelDrawMax);
  }

  /** The engine generator reaches ids 6 to 20, which the catalogue does not
      hold: looking one up would fail. */
  lemma UnlistedEngineDraws(id: int)
    requires 6 <= id <= EngineDrawMax
    ensures IsEngineDraw(id) && LookupEngine(id) == None
  {
  }
}
