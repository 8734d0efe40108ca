/** Properties of the seeded domain: tiling of the cells, positions inside
    their cell, macro-weights that reproduce the density, the order in which
    the draws are consumed, and that the seeding specification determines
    the domain completely. */
module SeedingFacts {
  import opened Pic
  import opened Seeding

  /** Adjacent cells share their common bound. */
  lemma AdjacentCellsMeet(cfg: Config, draws: seq<real>, i: nat)
    requires cfg.WellFormed() && TotalDraws(cfg) <= |draws| && i + 1 < Count(cfg.nx)
    ensures Seed(cfg, draws).grid[i].xMax == Seed(cfg, draws).grid[i + 1].xMin
  {
    SeededBounds(cfg, draws, i);
    SeededBounds(cfg, draws, i + 1);
    CellsAdjacent(cfg, i);
  }

  /** For a positive width, cell `i` ends no later than a later cell `j` starts. */
  lemma CellsOrdered(cfg: Config, draws: seq<real>, i: nat, j: nat)
    requires cfg.WellFormed() && TotalDraws(cfg) <= |draws| && i < j < Count(cfg.nx) && cfg.dx > 0.0
    ensures Seed(cfg, draws).grid[i].xMax <= Seed(cfg, draws).grid[j].xMin
  {
    SeededBounds(cfg, draws, i);
    SeededBounds(cfg, draws, j);
    CellsDisjoint(cfg, i, j);
  }

  /** The cells start at 0, each ends where the next begins, and for a
      positive width every cell is a non-empty interval lying to the left of
      every later cell. */
  lemma SeedTiles(cfg: Config, draws: seq<real>)
    requires cfg.WellFormed() && TotalDraws(cfg) <= |draws|
    ensures var g := Seed(cfg, draws).grid;
      && (|g| > 0 ==> g[0].xMin == 0.0)
      && (forall i :: 0 <= i < |g| - 1 ==> g[i].xMax == g[i + 1].xMin)
      && (cfg.dx > 0.0 ==> forall i :: 0 <= i < |g| ==> g[i].xMin < g[i].xMax)
      && (cfg.dx > 0.0 ==> forall i, j :: 0 <= i < j < |g| ==> g[i].xMax <= g[j].xMin)
  {
    var g := Seed(cfg, draws).grid;
    if |g| > 0 {
      SeededBounds(cfg, draws, 0);
      ScaleUnit(cfg.dx);
    }
    forall i | 0 <= i < |g| - 1
      ensures g[i].xMax == g[i + 1].xMin
    {
      AdjacentCellsMeet(cfg, draws, i);
    }
    if cfg.dx > 0.0 {
      forall i | 0 <= i < |g|
        ensures g[i].xMin < g[i].xMax
      {
        SeededBounds(cfg, draws, i);
        CellNonEmpty(cfg, i);
      }
      forall i, j | 0 <= i < j < |g|
        ensures g[i].xMax <= g[j].xMin
      {
        CellsOrdered(cfg, draws, i, j);
      }
    }
  }

  /** For a positive width, every point of `[0, nx * dx)` lies in exactly one
      cell, the one whose index is `floor(x / dx)`. */
  lemma SeedPartition(cfg: Config, draws: seq<real>, x: real)
    requires cfg.WellFormed() && TotalDraws(cfg) <= |draws|
    requires cfg.dx > 0.0 && 0.0 <= x < Scale(Count(cfg.nx) as real, cfg.dx)
    ensures var g := Seed(cfg, draws).grid;
      var i := (x / cfg.dx).Floor;
      && 0 <= i < |g|
      && g[i].xMin <= x < g[i].xMax
      && forall j :: 0 <= j < |g| && g[j].xMin <= x < g[j].xMax ==> j == i
  {
    var g := Seed(cfg, draws).grid;
    var i := (x / cfg.dx).Floor;
    LocateCell(cfg, x, Count(cfg.nx));
    SeededBounds(cfg, draws, i);
    forall j | 0 <= j < |g| && g[j].xMin <= x < g[j].xMax
      ensures j == i
    {
      SeededBounds(cfg, draws, j);
    }
  }

  /** A population that meets `SpeciesSpec` for a non-empty interval
      `[lo, hi)` and a block of canonical draws lies inside the interval. */
  lemma SpeciesSpecInCell(cfg: Config, s: nat, lo: real, hi: real, block: seq<real>, sp: Species, k: nat)
    requires cfg.WellFormed() && s < Count(cfg.nspecies) && lo < hi && UnitDraws(block)
    requires SpeciesSpec(cfg, s, lo, hi, block, sp) && k < |sp.partList|
    ensures lo <= sp.partList[k].x < hi
  {
    assert sp.partList[k].x == Uniform(lo, hi, block[k]);
  }

  /** With canonical draws and a positive width, particle `k` of species `s`
      in cell `ix` lies in that cell's `[x_min, x_max)`. */
  lemma ParticleInCell(cfg: Config, draws: seq<real>, ix: nat, s: nat, k: nat)
    requires cfg.WellFormed() && TotalDraws(cfg) <= |draws|
    requires UnitDraws(draws) && cfg.dx > 0.0
    requires ix < Count(cfg.nx) && s < Count(cfg.nspecies)
    requires k < |Seed(cfg, draws).grid[ix].speciesList[s].partList|
    ensures var c := Seed(cfg, draws).grid[ix];
      c.xMin <= c.speciesList[s].partList[k].x < c.xMax
  {
    var c := Seed(cfg, draws).grid[ix];
    SeededCell(cfg, draws, ix);
    var cellDraws := CellBlock(cfg, ix, draws);
    UnitSlice(draws, CellStart(cfg, ix), CellStart(cfg, ix + 1));
    DrawsBeforeMonotone(cfg, s + 1, Count(cfg.nspecies));
    UnitSlice(cellDraws, DrawsBefore(cfg, s), DrawsBefore(cfg, s + 1));
    CellNonEmpty(cfg, ix);
    SpeciesSpecInCell(cfg, s, c.xMin, c.xMax, SpeciesBlock(cfg, s, cellDraws), c.speciesList[s], k);
  }

  /** With canonical draws and a positive width, every particle lies in
      `[x_min, x_max)` of the cell that owns it. */
  lemma SeedPositionsInCell(cfg: Config, draws: seq<real>)
    requires cfg.WellFormed() && TotalDraws(cfg) <= |draws|
    requires UnitDraws(draws) && cfg.dx > 0.0
    ensures var g := Seed(cfg, draws).grid;
      forall ix, s, k ::
        0 <= ix < |g| && 0 <= s < |g[ix].speciesList| && 0 <= k < |g[ix].speciesList[s].partList| ==>
          g[ix].xMin <= g[ix].speciesList[s].partList[k].x < g[ix].xMax
  {
    var g := Seed(cfg, draws).grid;
    forall ix, s, k |
      0 <= ix < |g| && 0 <= s < |g[ix].speciesList| && 0 <= k < |g[ix].speciesList[s].partList|
      ensures g[ix].xMin <= g[ix].speciesList[s].partList[k].x < g[ix].xMax
    {
      SeededCell(cfg, draws, ix);
      ParticleInCell(cfg, draws, ix, s, k);
    }
  }

  /** A population that meets `SpeciesSpec` with `ppc > 0` particles weighs
      `num_dens * dx` in total. */
  lemma SpeciesSpecWeightSum(cfg: Config, s: nat, lo: real, hi: real, block: seq<real>, sp: Species)
    requires cfg.WellFormed() && s < Count(cfg.nspecies) && cfg.ppc[s] > 0
    requires SpeciesSpec(cfg, s, lo, hi, block, sp)
    ensures SumWeights(sp.partList) == cfg.numDens[s] * cfg.dx
  {
    var w := MacroWeight(cfg.numDens[s], cfg.dx, cfg.ppc[s]);
    assert |sp.partList| == cfg.ppc[s];
    SumOfEqualWeights(sp.partList, w);
    MacroWeightTotal(cfg.numDens[s], cfg.dx, cfg.ppc[s]);
  }

  /** In cell `ix`, the weights of species `s` add up to `num_dens * dx`
      when `ppc > 0`. */
  lemma SpeciesWeightSum(cfg: Config, draws: seq<real>, ix: nat, s: nat)
    requires cfg.WellFormed() && TotalDraws(cfg) <= |draws|
    requires ix < Count(cfg.nx) && s < Count(cfg.nspecies) && cfg.ppc[s] > 0
    ensures SumWeights(Seed(cfg, draws).grid[ix].speciesList[s].partList) == cfg.numDens[s] * cfg.dx
  {
    var c := Seed(cfg, draws).grid[ix];
    SeededCell(cfg, draws, ix);
    SpeciesSpecWeightSum(cfg, s, c.xMin, c.xMax, SpeciesBlock(cfg, s, CellBlock(cfg, ix, draws)), c.speciesList[s]);
  }

  /** Within every cell, the weights of a species with `ppc > 0` particles
      add up to `num_dens * dx`, the physical particle count of the cell. */
  lemma SeedWeightSum(cfg: Config, draws: seq<real>)
    requires cfg.WellFormed() && TotalDraws(cfg) <= |draws|
    ensures var g := Seed(cfg, draws).grid;
      forall ix, s :: 0 <= ix < |g| && 0 <= s < |g[ix].speciesList| && cfg.ppc[s] > 0 ==>
        SumWeights(g[ix].speciesList[s].partList) == cfg.numDens[s] * cfg.dx
  {
    var g := Seed(cfg, draws).grid;
    forall ix, s | 0 <= ix < |g| && 0 <= s < |g[ix].speciesList| && cfg.ppc[s] > 0
      ensures SumWeights(g[ix].speciesList[s].partList) == cfg.numDens[s] * cfg.dx
    {
      SeededCell(cfg, draws, ix);
      SpeciesWeightSum(cfg, draws, ix, s);
    }
  }

  /** The particles of a list of populations that meet `SpeciesSpec`, in
      storage order, took the cell's draws one after the other: the `j`-th of
      them sits at the image of the `j`-th draw and is at rest. */
  lemma {:induction false} CellDrawOrder(cfg: Config, lo: real, hi: real, cellDraws: seq<real>, sl: seq<Species>)
    requires cfg.WellFormed() && |sl| <= Count(cfg.nspecies) && DrawsPerCell(cfg) <= |cellDraws|
    requires forall s :: 0 <= s < |sl| ==> SpeciesSpec(cfg, s, lo, hi, SpeciesBlock(cfg, s, cellDraws), sl[s])
    ensures DrawsBefore(cfg, |sl|) <= DrawsPerCell(cfg)
    ensures var ps := CellParticles(sl);
      && |ps| == DrawsBefore(cfg, |sl|) <= |cellDraws|
      && forall j :: 0 <= j < |ps| ==> ps[j].x == Uniform(lo, hi, cellDraws[j]) && ps[j].v == Rest
    decreases |sl|
  {
    DrawsBeforeMonotone(cfg, |sl|, Count(cfg.nspecies));
    if |sl| > 0 {
      var n := |sl|;
      var prev := sl[..n - 1];
      CellDrawOrder(cfg, lo, hi, cellDraws, prev);
      var sp := sl[n - 1];
      var block := SpeciesBlock(cfg, n - 1, cellDraws);
      assert SpeciesSpec(cfg, n - 1, lo, hi, block, sp);
      var ps := CellParticles(sl);
      assert ps == CellParticles(prev) + sp.partList;
      forall j | DrawsBefore(cfg, n - 1) <= j < |ps|
        ensures ps[j].x == Uniform(lo, hi, cellDraws[j]) && ps[j].v == Rest
      {
        var k := j - DrawsBefore(cfg, n - 1);
        assert ps[j] == sp.partList[k];
        assert block[k] == cellDraws[j];
      }
    }
  }

  /** Particle `p` sits at the image of draw `u` in cell `ix` and is at rest. */
  predicate DrawnInCell(cfg: Config, ix: int, u: real, p: Particle)
  {
    p.x == Uniform(CellMin(cfg, ix), CellMax(cfg, ix), u) && p.v == Rest
  }

  /** Cell `ix`'s particles, in storage order, took that cell's block of draws
      in order. */
  predicate CellDrawn(cfg: Config, draws: seq<real>, ix: nat, c: Cell)
    requires cfg.WellFormed()
  {
    && CellStart(cfg, ix + 1) <= |draws|
    && |CellParticles(c.speciesList)| == DrawsPerCell(cfg)
    && forall j :: 0 <= j < DrawsPerCell(cfg) ==>
         DrawnInCell(cfg, ix, draws[CellStart(cfg, ix) + j], CellParticles(c.speciesList)[j])
  }

  /** A cell that meets `CellSpec` for its block of draws took them in order. */
  lemma CellBlockDrawOrder(cfg: Config, draws: seq<real>, ix: nat, c: Cell)
    requires cfg.WellFormed() && CellStart(cfg, ix + 1) <= |draws|
    requires CellSpec(cfg, ix, CellBlock(cfg, ix, draws), c)
    ensures CellDrawn(cfg, draws, ix, c)
  {
    var block := CellBlock(cfg, ix, draws);
    CellDrawOrder(cfg, c.xMin, c.xMax, block, c.speciesList);
    forall j | 0 <= j < DrawsPerCell(cfg)
      ensures DrawnInCell(cfg, ix, draws[CellStart(cfg, ix) + j], CellParticles(c.speciesList)[j])
    {
      assert block[j] == draws[CellStart(cfg, ix) + j];
    }
  }

  /** A grid whose cells each hold `DrawsPerCell` particles holds
      `CellStart(|g|)` particles. */
  lemma {:induction false} GridParticleCount(cfg: Config, g: seq<Cell>)
    requires cfg.WellFormed()
    requires forall i :: 0 <= i < |g| ==> |CellParticles(g[i].speciesList)| == DrawsPerCell(cfg)
    ensures |GridParticles(g)| == CellStart(cfg, |g|)
    decreases |g|
  {
    if |g| > 0 {
      var prev := g[..|g| - 1];
      assert forall i :: 0 <= i < |prev| ==> prev[i] == g[i];
      GridParticleCount(cfg, prev);
    }
  }

  /** In such a grid, particle `j` of cell `ix` sits at position
      `CellStart(ix) + j` of the grid's particles in storage order. */
  lemma {:induction false} GridParticleAt(cfg: Config, g: seq<Cell>, ix: nat, j: nat)
    requires cfg.WellFormed() && ix < |g| && j < DrawsPerCell(cfg)
    requires forall i :: 0 <= i < |g| ==> |CellParticles(g[i].speciesList)| == DrawsPerCell(cfg)
    ensures CellStart(cfg, ix + 1) <= CellStart(cfg, |g|) == |GridParticles(g)|
    ensures GridParticles(g)[CellStart(cfg, ix) + j] == CellParticles(g[ix].speciesList)[j]
    decreases |g|
  {
    var n := |g|;
    var prev := g[..n - 1];
    assert forall i :: 0 <= i < |prev| ==> prev[i] == g[i];
    GridParticleCount(cfg, g);
    GridParticleCount(cfg, prev);
    CellStartMonotone(cfg, ix + 1, n);
    assert GridParticles(g) == GridParticles(prev) + CellParticles(g[n - 1].speciesList);
    if ix < n - 1 {
      GridParticleAt(cfg, prev, ix, j);
    }
  }

  /** The particles of a grid whose cells each took their own block of draws
      in order took the draws one after the other: the draws of cell `ix`'s
      block went, in order, to the particles of cell `ix`. */
  lemma GridDrawOrder(cfg: Config, draws: seq<real>, g: seq<Cell>)
    requires cfg.WellFormed() && CellStart(cfg, |g|) <= |draws|
    requires forall ix :: 0 <= ix < |g| ==> CellDrawn(cfg, draws, ix, g[ix])
    ensures |GridParticles(g)| == CellStart(cfg, |g|)
    ensures forall ix, k :: 0 <= ix < |g| && CellStart(cfg, ix) <= k < CellStart(cfg, ix + 1) ==>
              (CellStartMonotone(cfg, ix + 1, |g|);
               DrawnInCell(cfg, ix, draws[k], GridParticles(g)[k]))
  {
    GridParticleCount(cfg, g);
    forall ix, k | 0 <= ix < |g| && CellStart(cfg, ix) <= k < CellStart(cfg, ix + 1)
      ensures (CellStartMonotone(cfg, ix + 1, |g|);
               DrawnInCell(cfg, ix, draws[k], GridParticles(g)[k]))
    {
      GridDrawnAt(cfg, draws, g, ix, k);
    }
  }

  /** Draw `k` of cell `ix`'s block went to particle `k` of the grid. */
  lemma GridDrawnAt(cfg: Config, draws: seq<real>, g: seq<Cell>, ix: nat, k: nat)
    requires cfg.WellFormed() && ix < |g|
    requires forall i :: 0 <= i < |g| ==> |CellParticles(g[i].speciesList)| == DrawsPerCell(cfg)
    requires CellDrawn(cfg, draws, ix, g[ix])
    requires CellStart(cfg, ix) <= k < CellStart(cfg, ix + 1)
    ensures k < |GridParticles(g)| && k < |draws|
    ensures DrawnInCell(cfg, ix, draws[k], GridParticles(g)[k])
  {
    var j := k - CellStart(cfg, ix);
    GridParticleAt(cfg, g, ix, j);
  }

  /** The seeding consumes exactly `TotalDraws` draws (`max(nx, 0)` times
      the sum of `max(ppc[s], 0)`), in the nested order
      cell, species, particle: the particles in storage order took the draws in
      order, and the `ix`-th block of draws went to cell `ix`. */
  lemma SeedDrawOrder(cfg: Config, draws: seq<real>)
    requires cfg.WellFormed() && TotalDraws(cfg) <= |draws|
    ensures var ps := GridParticles(Seed(cfg, draws).grid);
      && |ps| == TotalDraws(cfg)
      && forall ix, k :: 0 <= ix < Count(cfg.nx) && CellStart(cfg, ix) <= k < CellStart(cfg, ix + 1) ==>
           (CellStartMonotone(cfg, ix + 1, Count(cfg.nx));
            ps[k].x == Uniform(CellMin(cfg, ix), CellMax(cfg, ix), draws[k]) && ps[k].v == Rest)
  {
    var g := Seed(cfg, draws).grid;
    forall ix | 0 <= ix < |g|
      ensures CellDrawn(cfg, draws, ix, g[ix])
    {
      SeededCell(cfg, draws, ix);
      CellBlockDrawOrder(cfg, draws, ix, g[ix]);
    }
    GridDrawOrder(cfg, draws, g);
  }

  /** A slice within a prefix is the same slice of the whole. */
  lemma PrefixSlice(draws: seq<real>, t: nat, a: nat, b: nat)
    requires a <= b <= t <= |draws|
    ensures draws[..t][a..b] == draws[a..b]
  {
    forall k | 0 <= k < b - a
      ensures draws[..t][a..b][k] == draws[a..b][k]
    {
      assert draws[..t][a..b][k] == draws[a + k];
    }
  }

  /** Draws past the first `TotalDraws` (`max(nx, 0)` times the sum of
      `max(ppc[s], 0)`) are never read. */
  lemma SeedReadsOnlyItsDraws(cfg: Config, draws: seq<real>)
    requires cfg.WellFormed() && TotalDraws(cfg) <= |draws|
    ensures Seed(cfg, draws) == Seed(cfg, draws[..TotalDraws(cfg)])
  {
    var used := draws[..TotalDraws(cfg)];
    var g1, g2 := Seed(cfg, draws).grid, Seed(cfg, used).grid;
    forall ix | 0 <= ix < |g1|
      ensures g1[ix] == g2[ix]
    {
      SeededCell(cfg, draws, ix);
      SeededCell(cfg, used, ix);
      PrefixSlice(draws, TotalDraws(cfg), CellStart(cfg, ix), CellStart(cfg, ix + 1));
      CellSpecUnique(cfg, ix, CellBlock(cfg, ix, draws), g1[ix], g2[ix]);
    }
  }

  /** Two populations that both meet `SpeciesSpec` are equal. */
  lemma SpeciesSpecUnique(cfg: Config, s: nat, lo: real, hi: real, block: seq<real>, a: Species, b: Species)
    requires cfg.WellFormed() && s < Count(cfg.nspecies)
    requires SpeciesSpec(cfg, s, lo, hi, block, a) && SpeciesSpec(cfg, s, lo, hi, block, b)
    ensures a == b
  {
    assert a.partList == b.partList;
  }

  /** Two cells that both meet `CellSpec` are equal. */
  lemma CellSpecUnique(cfg: Config, ix: nat, cellDraws: seq<real>, a: Cell, b: Cell)
    requires cfg.WellFormed() && DrawsPerCell(cfg) <= |cellDraws|
    requires CellSpec(cfg, ix, cellDraws, a) && CellSpec(cfg, ix, cellDraws, b)
    ensures a == b
  {
    forall s | 0 <= s < |a.speciesList|
      ensures a.speciesList[s] == b.speciesList[s]
    {
      SpeciesSpecUnique(cfg, s, a.xMin, a.xMax, SpeciesBlock(cfg, s, cellDraws), a.speciesList[s], b.speciesList[s]);
    }
  }

  /** The seeding specification determines the domain completely: any domain
      that meets it is the one `Seed` builds. */
  lemma SeededUnique(cfg: Config, draws: seq<real>, d: Domain)
    requires cfg.WellFormed() && TotalDraws(cfg) <= |draws|
    requires Seeded(cfg, draws, d)
    ensures d == Seed(cfg, draws)
  {
    var e := Seed(cfg, draws);
    forall ix | 0 <= ix < |d.grid|
      ensures d.grid[ix] == e.grid[ix]
    {
      SeededCell(cfg, draws, ix);
      var cellDraws := CellBlock(cfg, ix, draws);
      CellSpecUnique(cfg, ix, cellDraws, d.grid[ix], e.grid[ix]);
    }
  }
}
