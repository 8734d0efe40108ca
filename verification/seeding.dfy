/** Seeding of the initial particle ensemble: the nested cell / species /
    particle construction loops of the program's entry point, as pure
    functions that build each cell, population and particle freshly.

    The random engine is replaced by a sequence of canonical draws, one per
    particle, taken in the order the loops consume them. A position is the
    image of its draw under the cell's uniform distribution. */
module Seeding {
  import opened Pic

  /** Number of iterations of `for (i = 0; i < n; i++)`: none when `n <= 0`. */
  function Count(n: int): nat
  {
    if n > 0 then n else 0
  }

  /** The seeding parameters, with the per-species parameters kept as the
      parallel arrays the program declares. */
  datatype Config = Config(
    nx: int,
    dx: real,
    nspecies: int,
    ppc: seq<int>,
    numDens: seq<real>,
    mass: seq<real>,
    charge: seq<real>,
    names: seq<string>)
  {
    /** Every per-species array covers each index the species loop reads. */
    predicate WellFormed()
    {
      && Count(nspecies) <= |ppc|
      && Count(nspecies) <= |numDens|
      && Count(nspecies) <= |mass|
      && Count(nspecies) <= |charge|
      && Count(nspecies) <= |names|
    }
  }

  /** The product `u * d`, named so that the order facts below are stated
      about one term. */
  function Scale(u: real, d: real): real
  {
    u * d
  }

  /** The value `uniform_real_distribution(lo, hi)` returns for the canonical
      draw `u`: `u * (hi - lo) + lo`, the affine image of `u` in `[lo, hi)`. */
  function Uniform(lo: real, hi: real, u: real): (x: real)
    ensures lo < hi && 0.0 <= u < 1.0 ==> lo <= x < hi
    ensures lo < hi ==> (x < hi <==> u < 1.0)
    ensures lo < hi ==> (lo <= x <==> 0.0 <= u)
  {
    if lo < hi then
      AffineOrder(lo, hi, u);
      Scale(u, hi - lo) + lo
    else Scale(u, hi - lo) + lo
  }

  /** For `lo < hi`, `u * (hi - lo) + lo` lies below `hi` exactly when `u < 1`
      and at or above `lo` exactly when `u >= 0`. */
  lemma AffineOrder(lo: real, hi: real, u: real)
    requires lo < hi
    ensures Scale(u, hi - lo) + lo < hi <==> u < 1.0
    ensures lo <= Scale(u, hi - lo) + lo <==> 0.0 <= u
  {
    ScaleStrict(hi - lo, u, 1.0);
    ScaleStrict(hi - lo, 0.0, u);
    ScaleUnit(hi - lo);
  }

  /** Scaling 1 gives the factor, scaling 0 gives 0. */
  lemma ScaleUnit(d: real)
    ensures Scale(1.0, d) == d && Scale(0.0, d) == 0.0
  {
  }

  /** A product of two positive numbers is positive. */
  lemma ProductPositive(a: real, b: real)
    requires a > 0.0 && b > 0.0
    ensures a * b > 0.0
  {
  }

  /** Scaling by a positive factor preserves order, both ways. */
  lemma ScaleStrict(d: real, u: real, v: real)
    requires d > 0.0
    ensures Scale(u, d) < Scale(v, d) <==> u < v
    ensures Scale(u, d) <= Scale(v, d) <==> u <= v
  {
    if u < v {
      assert v * d - u * d == (v - u) * d;
      ProductPositive(v - u, d);
    } else if v < u {
      assert u * d - v * d == (u - v) * d;
      ProductPositive(u - v, d);
    }
  }

  /** Every draw is a canonical draw, in `[0, 1)`. */
  predicate UnitDraws(draws: seq<real>)
  {
    forall k :: 0 <= k < |draws| ==> 0.0 <= draws[k] < 1.0
  }

  /** Every slice of canonical draws holds canonical draws. */
  lemma UnitSlice(draws: seq<real>, a: nat, b: nat)
    requires UnitDraws(draws) && a <= b <= |draws|
    ensures UnitDraws(draws[a..b])
  {
    forall k | 0 <= k < b - a
      ensures 0.0 <= draws[a..b][k] < 1.0
    {
      assert draws[a..b][k] == draws[a + k];
    }
  }

  /** The statistical weight of each of the `ppc` macro-particles that sample
      a density `numDens` over a cell of width `dx`. */
  function MacroWeight(numDens: real, dx: real, ppc: int): real
    requires ppc > 0
  {
    numDens * dx / ppc as real
  }

  /** The `ppc` macro-particles of a cell together stand for `numDens * dx`
      physical particles. */
  lemma MacroWeightTotal(numDens: real, dx: real, ppc: int)
    requires ppc > 0
    ensures ppc as real * MacroWeight(numDens, dx, ppc) == numDens * dx
  {
  }

  /** Lower bound of cell `ix`. */
  function CellMin(cfg: Config, ix: int): real
  {
    Scale(ix as real, cfg.dx)
  }

  /** Upper bound of cell `ix`. */
  function CellMax(cfg: Config, ix: int): real
  {
    Scale(ix as real + 1.0, cfg.dx)
  }

  /** For a positive width, the point `q * dx` lies at or above cell `i`'s
      lower bound exactly when `i <= q`, and below its upper bound exactly
      when `q < i + 1`. */
  lemma ScaledBounds(cfg: Config, i: int, q: real)
    requires cfg.dx > 0.0
    ensures CellMin(cfg, i) <= Scale(q, cfg.dx) <==> i as real <= q
    ensures Scale(q, cfg.dx) < CellMax(cfg, i) <==> q < i as real + 1.0
  {
    ScaleStrict(cfg.dx, i as real, q);
    ScaleStrict(cfg.dx, q, i as real + 1.0);
  }

  /** For a positive width, every cell is a non-empty interval. */
  lemma CellNonEmpty(cfg: Config, i: int)
    requires cfg.dx > 0.0
    ensures CellMin(cfg, i) < CellMax(cfg, i)
  {
    ScaleStrict(cfg.dx, i as real, i as real + 1.0);
  }

  /** Cell `i` ends exactly where cell `i + 1` starts. */
  lemma CellsAdjacent(cfg: Config, i: int)
    ensures CellMax(cfg, i) == CellMin(cfg, i + 1)
  {
    assert (i + 1) as real == i as real + 1.0;
  }

  /** For a positive width, a cell ends no later than any later cell starts. */
  lemma CellsDisjoint(cfg: Config, i: int, j: int)
    requires cfg.dx > 0.0 && i < j
    ensures CellMax(cfg, i) <= CellMin(cfg, j)
  {
    ScaleStrict(cfg.dx, i as real + 1.0, j as real);
  }

  /** For a positive width, the point `x >= 0` lies in cell `floor(x / dx)`
      and in no other, and that index is below `n` when `x < n * dx`. */
  lemma LocateCell(cfg: Config, x: real, n: int)
    requires cfg.dx > 0.0 && 0.0 <= x < Scale(n as real, cfg.dx)
    ensures var i := (x / cfg.dx).Floor;
      && 0 <= i < n
      && CellMin(cfg, i) <= x < CellMax(cfg, i)
      && forall j :: CellMin(cfg, j) <= x < CellMax(cfg, j) ==> j == i
  {
    var q := x / cfg.dx;
    var i := q.Floor;
    assert x == Scale(q, cfg.dx);
    ScaleStrict(cfg.dx, 0.0, q);
    ScaleStrict(cfg.dx, q, n as real);
    ScaleUnit(cfg.dx);
    ScaledBounds(cfg, i, q);
    forall j | CellMin(cfg, j) <= x < CellMax(cfg, j)
      ensures j == i
    {
      ScaledBounds(cfg, j, q);
    }
  }

  /** Number of draws the species loop consumes in one cell before species `s`. */
  function DrawsBefore(cfg: Config, s: nat): nat
    requires cfg.WellFormed() && s <= Count(cfg.nspecies)
  {
    if s == 0 then 0 else DrawsBefore(cfg, s - 1) + Count(cfg.ppc[s - 1])
  }

  /** Number of draws one cell consumes: the sum of `max(ppc[s], 0)` over
      the species `s < max(nspecies, 0)`. */
  function DrawsPerCell(cfg: Config): nat
    requires cfg.WellFormed()
  {
    DrawsBefore(cfg, Count(cfg.nspecies))
  }

  /** Number of draws the cell loop consumes before cell `ix`
      (`CellStartClosed` gives its closed form). */
  function CellStart(cfg: Config, ix: nat): nat
    requires cfg.WellFormed()
  {
    if ix == 0 then 0 else CellStart(cfg, ix - 1) + DrawsPerCell(cfg)
  }

  /** Number of draws the whole seeding consumes (`TotalDrawsClosed` gives
      its closed form). */
  function TotalDraws(cfg: Config): nat
    requires cfg.WellFormed()
  {
    CellStart(cfg, Count(cfg.nx))
  }

  /** The draws `DrawsBefore` hands out are consecutive, non-overlapping
      blocks: each starts where the previous one ends and none runs past the
      cell's total. */
  lemma {:induction false} DrawsBeforeMonotone(cfg: Config, s: nat, t: nat)
    requires cfg.WellFormed() && s <= t <= Count(cfg.nspecies)
    ensures DrawsBefore(cfg, s) <= DrawsBefore(cfg, t) <= DrawsPerCell(cfg)
    decreases Count(cfg.nspecies) - s, t - s
  {
    if s < t {
      DrawsBeforeMonotone(cfg, s, t - 1);
      DrawsBeforeMonotone(cfg, t, Count(cfg.nspecies));
    } else if t < Count(cfg.nspecies) {
      DrawsBeforeMonotone(cfg, t + 1, Count(cfg.nspecies));
    }
  }

  /** Cell blocks are consecutive: a later cell starts no earlier. */
  lemma {:induction false} CellStartMonotone(cfg: Config, i: nat, j: nat)
    requires cfg.WellFormed() && i <= j
    ensures CellStart(cfg, i) <= CellStart(cfg, j)
    decreases j
  {
    if i < j {
      CellStartMonotone(cfg, i, j - 1);
    }
  }

  /** Every cell takes one cell's worth of draws, so cell `ix` starts at
      draw `ix * DrawsPerCell(cfg)`. */
  lemma {:induction false} CellStartClosed(cfg: Config, ix: nat)
    requires cfg.WellFormed()
    ensures CellStart(cfg, ix) == ix * DrawsPerCell(cfg)
    decreases ix
  {
    if ix > 0 {
      CellStartClosed(cfg, ix - 1);
    }
  }

  /** The whole seeding consumes `max(nx, 0)` times the draws of one cell,
      that is `max(nx, 0)` times the sum of `max(ppc[s], 0)` over the species. */
  lemma TotalDrawsClosed(cfg: Config)
    requires cfg.WellFormed()
    ensures TotalDraws(cfg) == Count(cfg.nx) * DrawsPerCell(cfg)
  {
    CellStartClosed(cfg, Count(cfg.nx));
  }

  /** Every cell before `n` ends within the draws that reach to the start
      of cell `n`. */
  lemma CellStartBelow(cfg: Config, n: nat, len: nat)
    requires cfg.WellFormed() && CellStart(cfg, n) <= len
    ensures forall i :: 0 < i <= n ==> CellStart(cfg, i) <= len
  {
    forall i | 0 < i <= n
      ensures CellStart(cfg, i) <= len
    {
      CellStartMonotone(cfg, i, n);
    }
  }

  /** The first `n` particles of one population: the inner loop pushes
      particle `k` for draw `k`. */
  function SeedParticles(w: real, lo: real, hi: real, n: nat, draws: seq<real>): seq<Particle>
    requires n <= |draws|
  {
    seq(n, k requires 0 <= k < |draws| => Particle(w, Uniform(lo, hi, draws[k]), Rest))
  }

  /** What the population of species `s` in a cell `[lo, hi)` must be, given
      the block of draws it consumes: the configured name, mass and charge,
      `ppc[s]` particles (none when `ppc[s] <= 0`), the `k`-th of which has the
      macro weight, the `k`-th draw's position and zero velocity. */
  predicate SpeciesSpec(cfg: Config, s: nat, lo: real, hi: real, block: seq<real>, sp: Species)
    requires cfg.WellFormed() && s < Count(cfg.nspecies)
  {
    && sp.name == cfg.names[s]
    && sp.mass == cfg.mass[s]
    && sp.charge == cfg.charge[s]
    && |sp.partList| == Count(cfg.ppc[s]) <= |block|
    && forall k :: 0 <= k < |sp.partList| ==>
         && cfg.ppc[s] > 0
         && sp.partList[k] == Particle(MacroWeight(cfg.numDens[s], cfg.dx, cfg.ppc[s]), Uniform(lo, hi, block[k]), Rest)
  }

  /** One population: the body of the species loop for species `s`. The
      macro weight is only formed when there is a particle to carry it. */
  function SeedSpecies(cfg: Config, s: nat, lo: real, hi: real, block: seq<real>): (sp: Species)
    requires cfg.WellFormed() && s < Count(cfg.nspecies) && Count(cfg.ppc[s]) <= |block|
    ensures sp.name == cfg.names[s] && sp.mass == cfg.mass[s] && sp.charge == cfg.charge[s]
    ensures |sp.partList| == Count(cfg.ppc[s])
  {
    var parts :=
      if cfg.ppc[s] > 0 then SeedParticles(MacroWeight(cfg.numDens[s], cfg.dx, cfg.ppc[s]), lo, hi, cfg.ppc[s], block)
      else [];
    Species(cfg.mass[s], cfg.charge[s], cfg.names[s], parts)
  }

  /** The population `SeedSpecies` builds meets `SpeciesSpec`. */
  lemma SeedSpeciesMeetsSpec(cfg: Config, s: nat, lo: real, hi: real, block: seq<real>)
    requires cfg.WellFormed() && s < Count(cfg.nspecies) && Count(cfg.ppc[s]) <= |block|
    ensures SpeciesSpec(cfg, s, lo, hi, block, SeedSpecies(cfg, s, lo, hi, block))
  {
  }

  /** The block of a cell's draws that species `s` consumes. */
  function SpeciesBlock(cfg: Config, s: nat, cellDraws: seq<real>): (block: seq<real>)
    requires cfg.WellFormed() && s < Count(cfg.nspecies) && DrawsPerCell(cfg) <= |cellDraws|
    ensures |block| == Count(cfg.ppc[s])
  {
    DrawsBeforeMonotone(cfg, s + 1, Count(cfg.nspecies));
    cellDraws[DrawsBefore(cfg, s)..DrawsBefore(cfg, s + 1)]
  }

  /** The first `n` populations of a cell, in species order, each built
      freshly from its own block of draws. */
  function SeedSpeciesList(cfg: Config, lo: real, hi: real, n: nat, cellDraws: seq<real>): seq<Species>
    requires cfg.WellFormed() && n <= Count(cfg.nspecies) && DrawsPerCell(cfg) <= |cellDraws|
  {
    seq(n, s requires 0 <= s < Count(cfg.nspecies) => SeedSpecies(cfg, s, lo, hi, SpeciesBlock(cfg, s, cellDraws)))
  }

  /** What cell `ix` must be, given the block of draws it consumes: the
      bounds `ix * dx` and `(ix + 1) * dx`, and one population per configured
      species, in configuration order, each as `SpeciesSpec` describes. */
  predicate CellSpec(cfg: Config, ix: nat, cellDraws: seq<real>, c: Cell)
    requires cfg.WellFormed() && DrawsPerCell(cfg) <= |cellDraws|
  {
    && c.xMin == CellMin(cfg, ix)
    && c.xMax == CellMax(cfg, ix)
    && |c.speciesList| == Count(cfg.nspecies)
    && forall s :: 0 <= s < |c.speciesList| ==>
         SpeciesSpec(cfg, s, c.xMin, c.xMax, SpeciesBlock(cfg, s, cellDraws), c.speciesList[s])
  }

  /** One cell: the body of the cell loop for index `ix`. */
  function SeedCell(cfg: Config, ix: nat, cellDraws: seq<real>): (c: Cell)
    requires cfg.WellFormed() && DrawsPerCell(cfg) <= |cellDraws|
    ensures c.xMin == CellMin(cfg, ix) && c.xMax == CellMax(cfg, ix)
    ensures |c.speciesList| == Count(cfg.nspecies)
  {
    Cell(CellMin(cfg, ix), CellMax(cfg, ix), SeedSpeciesList(cfg, CellMin(cfg, ix), CellMax(cfg, ix), Count(cfg.nspecies), cellDraws))
  }

  /** The cell `SeedCell` builds meets `CellSpec`. */
  lemma SeedCellMeetsSpec(cfg: Config, ix: nat, cellDraws: seq<real>)
    requires cfg.WellFormed() && DrawsPerCell(cfg) <= |cellDraws|
    ensures CellSpec(cfg, ix, cellDraws, SeedCell(cfg, ix, cellDraws))
  {
    var c := SeedCell(cfg, ix, cellDraws);
    forall s | 0 <= s < |c.speciesList|
      ensures SpeciesSpec(cfg, s, c.xMin, c.xMax, SpeciesBlock(cfg, s, cellDraws), c.speciesList[s])
    {
      SeedSpeciesMeetsSpec(cfg, s, c.xMin, c.xMax, SpeciesBlock(cfg, s, cellDraws));
    }
  }

  /** The block of draws cell `ix` consumes. */
  function CellBlock(cfg: Config, ix: nat, draws: seq<real>): (block: seq<real>)
    requires cfg.WellFormed() && CellStart(cfg, ix + 1) <= |draws|
    ensures |block| == DrawsPerCell(cfg)
  {
    draws[CellStart(cfg, ix)..CellStart(cfg, ix + 1)]
  }

  /** The first `n` cells of the grid, in increasing index order, each
      built freshly from its index and its own block of draws. */
  function SeedGrid(cfg: Config, n: nat, draws: seq<real>): seq<Cell>
    requires cfg.WellFormed() && CellStart(cfg, n) <= |draws|
  {
    CellStartBelow(cfg, n, |draws|);
    seq(n, ix requires 0 <= ix && CellStart(cfg, ix + 1) <= |draws| => SeedCell(cfg, ix, CellBlock(cfg, ix, draws)))
  }

  /** What the seeded domain must be: `nx` cells (none when `nx <= 0`), cell
      `ix` as `CellSpec` describes for the `ix`-th block of draws. */
  predicate Seeded(cfg: Config, draws: seq<real>, d: Domain)
    requires cfg.WellFormed() && TotalDraws(cfg) <= |draws|
  {
    && |d.grid| == Count(cfg.nx)
    && forall ix :: 0 <= ix < |d.grid| ==>
         (CellStartMonotone(cfg, ix + 1, Count(cfg.nx));
          CellSpec(cfg, ix, CellBlock(cfg, ix, draws), d.grid[ix]))
  }

  /** The seeding loops of the program's entry point. */
  function Seed(cfg: Config, draws: seq<real>): (d: Domain)
    requires cfg.WellFormed() && TotalDraws(cfg) <= |draws|
    ensures |d.grid| == Count(cfg.nx)
    ensures forall ix :: 0 <= ix < |d.grid| ==> |d.grid[ix].speciesList| == Count(cfg.nspecies)
  {
    CellStartBelow(cfg, Count(cfg.nx), |draws|);
    Domain(SeedGrid(cfg, Count(cfg.nx), draws))
  }

  /** Cell `ix` of the seeded domain spans `[ix * dx, (ix + 1) * dx)`. */
  lemma SeededBounds(cfg: Config, draws: seq<real>, ix: nat)
    requires cfg.WellFormed() && TotalDraws(cfg) <= |draws| && ix < Count(cfg.nx)
    ensures Seed(cfg, draws).grid[ix].xMin == CellMin(cfg, ix)
    ensures Seed(cfg, draws).grid[ix].xMax == CellMax(cfg, ix)
  {
    CellStartMonotone(cfg, ix + 1, Count(cfg.nx));
  }

  /** Cell `ix` of the seeded domain meets `CellSpec` for its own block of
      draws. */
  lemma SeededCell(cfg: Config, draws: seq<real>, ix: nat)
    requires cfg.WellFormed() && TotalDraws(cfg) <= |draws| && ix < Count(cfg.nx)
    ensures CellStart(cfg, ix + 1) <= |draws|
    ensures CellSpec(cfg, ix, CellBlock(cfg, ix, draws), Seed(cfg, draws).grid[ix])
  {
    CellStartMonotone(cfg, ix + 1, Count(cfg.nx));
    SeedCellMeetsSpec(cfg, ix, CellBlock(cfg, ix, draws));
  }

  /** The seeded domain meets the seeding specification. */
  lemma SeedMeetsSpec(cfg: Config, draws: seq<real>)
    requires cfg.WellFormed() && TotalDraws(cfg) <= |draws|
    ensures Seeded(cfg, draws, Seed(cfg, draws))
  {
    var d := Seed(cfg, draws);
    forall ix | 0 <= ix < |d.grid|
      ensures (CellStartMonotone(cfg, ix + 1, Count(cfg.nx));
               CellSpec(cfg, ix, CellBlock(cfg, ix, draws), d.grid[ix]))
    {
      SeededCell(cfg, draws, ix);
    }
  }
}
