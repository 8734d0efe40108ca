/** The seeding loops as the program writes them: one `species` and one
    `cell` value are reused across iterations, filled in place, copied into
    their owner, and cleared. The generator is a cursor into the draws. Each
    loop builds exactly what `Seed` defines, which is what the clearing of
    the reused values guarantees. */
module SeedingLoop {
  import opened Pic
  import opened Seeding

  /** The particle loop for species `s` in the cell `[lo, hi)`: fills the
      reused (cleared) species value, consuming one draw per particle from
      the cursor `used` on. */
  method FillSpecies(cfg: Config, s: nat, lo: real, hi: real, draws: seq<real>, used: nat, sp: Species)
    returns (filled: Species, next: nat)
    requires cfg.WellFormed() && s < Count(cfg.nspecies) && used + Count(cfg.ppc[s]) <= |draws|
    requires sp.partList == []
    ensures next == used + Count(cfg.ppc[s])
    ensures filled == SeedSpecies(cfg, s, lo, hi, draws[used..next])
  {
    var block := draws[used..used + Count(cfg.ppc[s])];
    filled := sp.(mass := cfg.mass[s], charge := cfg.charge[s], name := cfg.names[s]);
    next := used;
    var ipart := 0;
    while ipart < cfg.ppc[s]
      invariant 0 <= ipart <= Count(cfg.ppc[s])
      invariant next == used + ipart
      invariant filled == Species(cfg.mass[s], cfg.charge[s], cfg.names[s], filled.partList)
      invariant cfg.ppc[s] <= 0 ==> filled.partList == []
      invariant cfg.ppc[s] > 0 ==>
        filled.partList == SeedParticles(MacroWeight(cfg.numDens[s], cfg.dx, cfg.ppc[s]), lo, hi, ipart, block)
    {
      var macroWeight := MacroWeight(cfg.numDens[s], cfg.dx, cfg.ppc[s]);
      assert draws[next] == block[ipart];
      var x := Uniform(lo, hi, draws[next]);
      filled := filled.(partList := filled.partList + [Particle(macroWeight, x, Rest)]);
      next := next + 1;
      ipart := ipart + 1;
    }
  }

  /** A slice of a slice is a slice of the original. */
  lemma SliceOfSlice(s: seq<real>, start: nat, len: nat, a: nat, b: nat)
    requires start + len <= |s| && a <= b <= len
    ensures s[start..start + len][a..b] == s[start + a..start + b]
  {
    var lhs, rhs := s[start..start + len][a..b], s[start + a..start + b];
    assert |lhs| == |rhs|;
    forall i | 0 <= i < |lhs|
      ensures lhs[i] == rhs[i]
    {
    }
  }

  /** Species `s` of the cell whose draws start at `used` reads the draws
      from `used + DrawsBefore(cfg, s)` up to `used + DrawsBefore(cfg, s + 1)`. */
  lemma SpeciesBlockAt(cfg: Config, draws: seq<real>, used: nat, s: nat)
    requires cfg.WellFormed() && used + DrawsPerCell(cfg) <= |draws| && s < Count(cfg.nspecies)
    ensures DrawsBefore(cfg, s) <= DrawsBefore(cfg, s + 1) <= DrawsPerCell(cfg)
    ensures SpeciesBlock(cfg, s, draws[used..used + DrawsPerCell(cfg)])
            == draws[used + DrawsBefore(cfg, s)..used + DrawsBefore(cfg, s + 1)]
  {
    DrawsBeforeMonotone(cfg, s, s + 1);
    DrawsBeforeMonotone(cfg, s + 1, Count(cfg.nspecies));
    assert SpeciesBlock(cfg, s, draws[used..used + DrawsPerCell(cfg)])
           == draws[used..used + DrawsPerCell(cfg)][DrawsBefore(cfg, s)..DrawsBefore(cfg, s + 1)];
    SliceOfSlice(draws, used, DrawsPerCell(cfg), DrawsBefore(cfg, s), DrawsBefore(cfg, s + 1));
  }

  /** Appending the population of species `s`, built from the draws
      `draws[a..b]` the generator hands out after the first `s` populations,
      extends the list of the first `s` populations. */
  lemma SpeciesListStep(cfg: Config, lo: real, hi: real, draws: seq<real>, used: nat, s: nat, a: nat, b: nat, current: Species)
    requires cfg.WellFormed() && used + DrawsPerCell(cfg) <= |draws| && s < Count(cfg.nspecies)
    requires a == used + DrawsBefore(cfg, s) && b == a + Count(cfg.ppc[s]) <= |draws|
    requires current == SeedSpecies(cfg, s, lo, hi, draws[a..b])
    ensures b == used + DrawsBefore(cfg, s + 1)
    ensures SeedSpeciesList(cfg, lo, hi, s, draws[used..used + DrawsPerCell(cfg)]) + [current]
            == SeedSpeciesList(cfg, lo, hi, s + 1, draws[used..used + DrawsPerCell(cfg)])
  {
    SpeciesBlockAt(cfg, draws, used, s);
    var cellDraws := draws[used..used + DrawsPerCell(cfg)];
    assert current == SeedSpecies(cfg, s, lo, hi, SpeciesBlock(cfg, s, cellDraws));
    assert SeedSpeciesList(cfg, lo, hi, s + 1, cellDraws)
           == SeedSpeciesList(cfg, lo, hi, s, cellDraws) + [SeedSpecies(cfg, s, lo, hi, SpeciesBlock(cfg, s, cellDraws))];
  }

  /** The species loop for the cell `[lo, hi)`: fills the reused (cleared) cell value,
      handing the reused species value to each particle loop and clearing it
      afterwards. */
  method FillCell(cfg: Config, lo: real, hi: real, draws: seq<real>, used: nat, c: Cell, sp: Species)
    returns (filled: Cell, cleared: Species, next: nat)
    requires cfg.WellFormed() && used + DrawsPerCell(cfg) <= |draws|
    requires c.speciesList == [] && sp.partList == []
    ensures next == used + DrawsPerCell(cfg)
    ensures filled == Cell(lo, hi, SeedSpeciesList(cfg, lo, hi, Count(cfg.nspecies), draws[used..used + DrawsPerCell(cfg)]))
    ensures cleared.partList == []
  {
    var cellDraws := draws[used..used + DrawsPerCell(cfg)];
    filled := c.(xMin := lo, xMax := hi);
    cleared := sp;
    next := used;
    var ispec := 0;
    while ispec < cfg.nspecies
      invariant 0 <= ispec <= Count(cfg.nspecies)
      invariant next == used + DrawsBefore(cfg, ispec) <= used + DrawsPerCell(cfg)
      invariant filled.xMin == lo && filled.xMax == hi
      invariant filled.speciesList == SeedSpeciesList(cfg, lo, hi, ispec, cellDraws)
      invariant cleared.partList == []
    {
      DrawsBeforeMonotone(cfg, ispec + 1, Count(cfg.nspecies));
      ghost var start := next;
      var current;
      current, next := FillSpecies(cfg, ispec, lo, hi, draws, next, cleared);
      SpeciesListStep(cfg, lo, hi, draws, used, ispec, start, next, current);
      filled := filled.(speciesList := filled.speciesList + [current]);
      cleared := current.(partList := []);
      ispec := ispec + 1;
    }
    assert ispec == Count(cfg.nspecies);
    assert filled == Cell(lo, hi, filled.speciesList);
  }

  /** Appending cell `ix` `[lo, hi)`, filled from the draws the generator
      hands out from `start` on, after the first `ix` cells, extends the grid
      of the first `ix` cells. */
  lemma GridStep(cfg: Config, draws: seq<real>, ix: nat, lo: real, hi: real, start: nat, filled: Cell)
    requires cfg.WellFormed() && CellStart(cfg, ix + 1) <= |draws|
    requires lo == CellMin(cfg, ix) && hi == CellMax(cfg, ix) && start == CellStart(cfg, ix)
    requires filled == Cell(lo, hi, SeedSpeciesList(cfg, lo, hi, Count(cfg.nspecies), draws[start..start + DrawsPerCell(cfg)]))
    ensures SeedGrid(cfg, ix, draws) + [filled] == SeedGrid(cfg, ix + 1, draws)
  {
    assert filled == SeedCell(cfg, ix, CellBlock(cfg, ix, draws));
  }

  /** The cell loop of the entry point: `nx` cells appended in index order,
      each filled from the reused (cleared) cell value. Besides the domain it
      returns how many draws the generator handed out. */
  method SeedDomain(cfg: Config, draws: seq<real>) returns (pic: Domain, used: nat)
    requires cfg.WellFormed() && TotalDraws(cfg) <= |draws|
    ensures pic == Seed(cfg, draws)
    ensures used == TotalDraws(cfg)
  {
    var currentSpecies := Species(0.0, 0.0, "", []);
    var currentCell := Cell(0.0, 0.0, []);
    pic := Domain([]);
    used := 0;
    var ix := 0;
    while ix < cfg.nx
      invariant 0 <= ix <= Count(cfg.nx)
      invariant used == CellStart(cfg, ix) <= TotalDraws(cfg)
      invariant pic.grid == SeedGrid(cfg, ix, draws)
      invariant currentCell.speciesList == []
      invariant currentSpecies.partList == []
    {
      CellStartMonotone(cfg, ix + 1, Count(cfg.nx));
      var lo, hi := CellMin(cfg, ix), CellMax(cfg, ix);
      ghost var start := used;
      var filled;
      filled, currentSpecies, used := FillCell(cfg, lo, hi, draws, used, currentCell, currentSpecies);
      GridStep(cfg, draws, ix, lo, hi, start, filled);
      pic := pic.(grid := pic.grid + [filled]);
      currentCell := filled.(speciesList := []);
      ix := ix + 1;
    }
  }
}
