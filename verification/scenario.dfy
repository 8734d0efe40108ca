/** The run the program's entry point performs: five cells of 10 nm, each
    holding 3 electrons and 6 protons that sample a number density of 1e20,
    followed by the report of the seeded domain. */
module Scenario {
  import opened Pic
  import opened Seeding
  import opened SeedingFacts
  import opened Report

  /** Electron mass in kilograms. */
  const ElectronMass: real := 0.00000000000000000000000000000091093837015

  /** Proton mass in kilograms. */
  const ProtonMass: real := 0.00000000000000000000000000167262192369

  /** Elementary charge in coulombs. */
  const ElementaryCharge: real := 0.0000000000000000001602176634

  /** Cell width in metres. */
  const CellWidth: real := 0.00000001

  /** Number density of both species. */
  const Density: real := 100000000000000000000.0

  /** The parameters `main` declares. */
  const MainConfig := Config(
    5, CellWidth, 2, [3, 6], [Density, Density],
    [ElectronMass, ProtonMass], [-ElementaryCharge, ElementaryCharge],
    ["Electron", "Proton"])

  /** The run reads 9 draws per cell and 45 in all. */
  lemma MainDraws()
    ensures MainConfig.WellFormed()
    ensures DrawsPerCell(MainConfig) == 9
    ensures TotalDraws(MainConfig) == 45
  {
    var cfg := MainConfig;
    assert DrawsBefore(cfg, 1) == 3;
    assert DrawsBefore(cfg, 2) == 9;
    assert CellStart(cfg, 1) == 9;
    assert CellStart(cfg, 2) == 18;
    assert CellStart(cfg, 3) == 27;
    assert CellStart(cfg, 4) == 36;
    assert CellStart(cfg, 5) == 45;
  }

  /** The seeded domain of the run: five cells, each with an electron
      population of 3 and a proton population of 6 particles, and each
      population weighing `1e20 * 10e-9 = 1e12` physical particles. */
  lemma MainSeeding(draws: seq<real>)
    requires 45 <= |draws|
    ensures MainConfig.WellFormed() && TotalDraws(MainConfig) <= |draws|
    ensures var g := Seed(MainConfig, draws).grid;
      && |g| == 5
      && forall ix :: 0 <= ix < 5 ==>
           && |g[ix].speciesList| == 2
           && g[ix].speciesList[0].name == "Electron"
           && g[ix].speciesList[0].charge == -ElementaryCharge
           && |g[ix].speciesList[0].partList| == 3
           && g[ix].speciesList[1].name == "Proton"
           && g[ix].speciesList[1].charge == ElementaryCharge
           && |g[ix].speciesList[1].partList| == 6
           && SumWeights(g[ix].speciesList[0].partList) == 1000000000000.0
           && SumWeights(g[ix].speciesList[1].partList) == 1000000000000.0
  {
    MainDraws();
    var cfg := MainConfig;
    var g := Seed(cfg, draws).grid;
    SeedWeightSum(cfg, draws);
    forall ix | 0 <= ix < 5
      ensures g[ix].speciesList[0].name == "Electron" && g[ix].speciesList[1].name == "Proton"
      ensures g[ix].speciesList[0].charge == -ElementaryCharge && g[ix].speciesList[1].charge == ElementaryCharge
      ensures |g[ix].speciesList[0].partList| == 3 && |g[ix].speciesList[1].partList| == 6
    {
      SeededCell(cfg, draws, ix);
    }
  }

  /** Every particle of the run has the macro weight of its population
      (`1e12 / 3` for an electron, `1e12 / 6` for a proton) and zero
      velocity, and every population carries its species' mass. */
  lemma MainParticles(draws: seq<real>)
    requires 45 <= |draws|
    ensures MainConfig.WellFormed() && TotalDraws(MainConfig) <= |draws|
    ensures var g := Seed(MainConfig, draws).grid;
      && |g| == 5
      && forall ix :: 0 <= ix < 5 ==>
           && |g[ix].speciesList| == 2
           && g[ix].speciesList[0].mass == ElectronMass
           && g[ix].speciesList[1].mass == ProtonMass
           && |g[ix].speciesList[0].partList| == 3
           && |g[ix].speciesList[1].partList| == 6
           && (forall k :: 0 <= k < 3 ==>
                 g[ix].speciesList[0].partList[k].weight == 1000000000000.0 / 3.0
                 && g[ix].speciesList[0].partList[k].v == Rest)
           && (forall k :: 0 <= k < 6 ==>
                 g[ix].speciesList[1].partList[k].weight == 1000000000000.0 / 6.0
                 && g[ix].speciesList[1].partList[k].v == Rest)
  {
    MainDraws();
    var cfg := MainConfig;
    var g := Seed(cfg, draws).grid;
    assert MacroWeight(Density, CellWidth, 3) == 1000000000000.0 / 3.0;
    assert MacroWeight(Density, CellWidth, 6) == 1000000000000.0 / 6.0;
    forall ix | 0 <= ix < 5
      ensures g[ix].speciesList[0].mass == ElectronMass && g[ix].speciesList[1].mass == ProtonMass
      ensures |g[ix].speciesList[0].partList| == 3 && |g[ix].speciesList[1].partList| == 6
      ensures forall k :: 0 <= k < 3 ==>
                g[ix].speciesList[0].partList[k].weight == 1000000000000.0 / 3.0
                && g[ix].speciesList[0].partList[k].v == Rest
      ensures forall k :: 0 <= k < 6 ==>
                g[ix].speciesList[1].partList[k].weight == 1000000000000.0 / 6.0
                && g[ix].speciesList[1].partList[k].v == Rest
    {
      SeededCell(cfg, draws, ix);
    }
  }

  /** With canonical draws, the particles of cell `ix` lie in
      `[ix * 10 nm, (ix + 1) * 10 nm)`, and the cells tile `[0, 50 nm)`. */
  lemma MainPositions(draws: seq<real>)
    requires 45 <= |draws| && UnitDraws(draws)
    ensures MainConfig.WellFormed() && TotalDraws(MainConfig) <= |draws|
    ensures var g := Seed(MainConfig, draws).grid;
      && g[0].xMin == 0.0
      && g[4].xMax == 0.00000005
      && (forall i :: 0 <= i < 4 ==> g[i].xMax == g[i + 1].xMin)
      && forall ix, s, k ::
           0 <= ix < |g| && 0 <= s < |g[ix].speciesList| && 0 <= k < |g[ix].speciesList[s].partList| ==>
             g[ix].xMin <= g[ix].speciesList[s].partList[k].x < g[ix].xMax
  {
    MainDraws();
    var cfg := MainConfig;
    SeedTiles(cfg, draws);
    SeededBounds(cfg, draws, 4);
    assert CellMax(cfg, 4) == 0.00000005;
    SeedPositionsInCell(cfg, draws);
  }

  /** The report of the run has 60 lines: 5 cell headers, 10 species
      headers and 45 particle lines; and the domain can be read back from it. */
  lemma MainReport(draws: seq<real>)
    requires 45 <= |draws|
    ensures MainConfig.WellFormed() && TotalDraws(MainConfig) <= |draws|
    ensures var d := Seed(MainConfig, draws);
      && |Enumerate(d)| == 60
      && |ParticlesOf(Enumerate(d))| == 45
      && Parse(Enumerate(d)) == Some(d)
  {
    MainDraws();
    var d := Seed(MainConfig, draws);
    SeedDrawOrder(MainConfig, draws);
    SpeciesCountUniform(d.grid, 2);
    EnumerateLength(d);
    EnumerateParticles(d);
    ParseEnumerate(d);
  }
}
