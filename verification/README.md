# AVOCADO initial-state seeding, in Dafny

AVOCADO is a small 1-D particle-in-cell code. Its only logic is the seeding of
the initial particle ensemble in `main` and the read-only traversal of the
result in `domain::print_particles`. This project models both:

- `pic.dfy` (module `Pic`): the ownership tree. A `Domain` owns its cells. A
  `Cell` owns one `Species` population per configured species. A population
  owns its `Particle`s. The module also has the storage-order flattening of
  that tree.
- `seeding.dfy` (module `Seeding`): the cell / species / particle loops of
  `main` as pure functions, and `Seeded`, the specification of the domain
  they build.
  - The random engine is replaced by a sequence of canonical draws, one per
    particle, in the order the loops consume them.
  - A position is the image `u * (x_max - x_min) + x_min` of its draw `u`.
  - `SeedMeetsSpec` proves that `Seed` meets `Seeded`.
  - `SeededUnique` (in `SeedingFacts`) proves that `Seeded` determines the
    domain completely.
- `seeding_facts.dfy` (module `SeedingFacts`): properties of the seeded domain:
  - the cells tile `[0, nx * dx)`;
  - every particle lies in its own cell;
  - the macro-weights add up to the density;
  - the draws are consumed in the order cell, species, particle;
  - the seeding reads exactly `max(nx, 0) * D` draws, where `D` is the sum of
    `max(ppc[s], 0)` over the species `s < max(nspecies, 0)`, and never
    reads the draws after those.
- `seeding_loop.dfy` (module `SeedingLoop`): the loops as the program writes
  them. One species value and one cell value are reused, filled in place,
  pushed, and cleared. The generator is a cursor into the draws. Each method is
  proved to build exactly what `Seed` defines.
- `report.dfy` (module `Report`): the traversal of `print_particles` as a
  sequence of cell, species and particle records in storage order. Its
  partner is a parser. The two are proved inverse both ways, and the record
  count is proved to be `cells + populations + particles`.
- `scenario.dfy` (module `Scenario`): the concrete run of `main`:
  - 5 cells of 10 nm;
  - 3 electrons and 6 protons per cell at a density of 1e20;
  - 45 draws in all, and a 60-line report.

Integer loop bounds follow C++ `for (i = 0; i < n; i++)`: a bound `n <= 0`
runs zero iterations (`Count(n) = max(n, 0)`).

`main.cpp` validates none of its parameters, and the model follows the code:
- `nx <= 0` gives an empty domain;
- `ppc[s] <= 0` gives an empty population;
- `dx == 0` gives cells of zero width;
- the lengths of the per-species arrays are never compared.

Only the tiling and position facts assume `dx > 0`. For `dx < 0` see
`Seeding.Uniform` under "## Left out".

The one genuine precondition is `Config.WellFormed`: every per-species array
covers each index the species loop reads. In C++ an out-of-range read of
those arrays is undefined behaviour.

## Model

| member | source | states |
|---|---|---|
| Seeding.Uniform | main.cpp:83-87 | for a non-empty interval, a canonical draw `u` in `[0, 1)` lands in `[x_min, x_max)`; the position is below `x_max` exactly when `u < 1` and at or above `x_min` exactly when `u >= 0` |
| Seeding.MacroWeight | main.cpp:82 | the macro weight `num_dens * dx / ppc` of a species with `ppc > 0`; it carries no contract of its own, and `MacroWeightTotal` states what it means |
| Seeding.MacroWeightTotal | main.cpp:82 | `ppc` macro-particles of weight `num_dens * dx / ppc` together stand for `num_dens * dx` physical particles |
| Seeding.CellMin | main.cpp:72 | the lower bound `ix * dx` of cell `ix`; no contract of its own, its facts are `ScaledBounds`, `CellNonEmpty`, `CellsAdjacent` and `CellsDisjoint` |
| Seeding.CellMax | main.cpp:73 | the upper bound `(ix + 1) * dx` of cell `ix`; no contract of its own, its facts are the same lemmas as `CellMin`'s |
| Seeding.CellsAdjacent | main.cpp:72-73 | cell `i`'s upper bound `(i + 1) * dx` is cell `i + 1`'s lower bound |
| Seeding.CellNonEmpty | main.cpp:72-73 | for `dx > 0` every cell has `x_min < x_max` |
| Seeding.CellsDisjoint | main.cpp:72-73 | for `dx > 0` a cell ends no later than any later cell starts |
| Seeding.LocateCell | main.cpp:72-73 | for `dx > 0`, a point of `[0, n * dx)` lies in cell `floor(x / dx)`, that index is below `n`, and no other cell contains the point |
| Seeding.DrawsBeforeMonotone | main.cpp:76-92 | within a cell, the blocks of draws the species loop hands to consecutive species are consecutive and stay within the cell's total |
| Seeding.CellStartMonotone | main.cpp:71-99 | a later cell's block of draws starts no earlier than an earlier cell's |
| Seeding.CellStartClosed | main.cpp:71-92 | every cell takes one cell's worth of draws, so cell `ix` starts at draw `ix * DrawsPerCell`, where `DrawsPerCell` is the sum of `max(ppc[s], 0)` over the species |
| Seeding.TotalDrawsClosed | main.cpp:71-92 | the whole seeding reads `max(nx, 0) * DrawsPerCell` draws |
| Seeding.SeedSpecies | main.cpp:77-94 | the population for species `s` has the configured name, mass and charge and `max(ppc[s], 0)` particles; `SeedSpeciesMeetsSpec` gives the particles themselves |
| Seeding.SeedSpeciesMeetsSpec | main.cpp:77-94 | the population built for species `s` meets `SpeciesSpec`: configured name, mass and charge; `ppc[s]` particles (none when `ppc[s] <= 0`); particle `k` has the macro weight, the image of the `k`-th draw of its block as position, and zero velocity |
| Seeding.SeedCell | main.cpp:72-95 | the cell for index `ix` has bounds `CellMin(ix)` and `CellMax(ix)` and one population per species, `max(nspecies, 0)` in all; `SeedCellMeetsSpec` gives the populations themselves |
| Seeding.SeedCellMeetsSpec | main.cpp:72-95 | the cell built for index `ix` meets `CellSpec`: bounds `ix * dx` and `(ix + 1) * dx`, one population per species in configuration order, population `s` built only from its own block of draws |
| Seeding.SeededBounds | main.cpp:72-73 | cell `ix` of the seeded domain spans `ix * dx` to `(ix + 1) * dx` |
| Seeding.SeededCell | main.cpp:71-98 | cell `ix` of the seeded domain meets `CellSpec` for the `ix`-th block of draws |
| Seeding.Seed | main.cpp:71-99 | the seeded domain has `max(nx, 0)` cells, each with `max(nspecies, 0)` populations; `SeedMeetsSpec` and `SeededUnique` state that it is exactly the domain `Seeded` describes |
| Seeding.SeedMeetsSpec | main.cpp:71-99 | the seeded domain has `max(nx, 0)` cells, cell `ix` meeting `CellSpec` for the `ix`-th block of draws |
| SeedingFacts.SeededUnique | main.cpp:71-99 | any domain that meets the seeding specification is the seeded domain; nothing else, in particular nothing of a previous species or cell, can be in it |
| SeedingFacts.AdjacentCellsMeet | main.cpp:72-73 | in the seeded domain, `grid[i].x_max == grid[i + 1].x_min` |
| SeedingFacts.CellsOrdered | main.cpp:72-73 | for `dx > 0`, in the seeded domain a cell ends no later than any later cell starts |
| SeedingFacts.SeedTiles | main.cpp:71-73 | the seeded cells start at 0 and each ends where the next begins; for `dx > 0` each is non-empty and lies left of every later cell |
| SeedingFacts.SeedPartition | main.cpp:71-73 | for `dx > 0`, each point of `[0, nx * dx)` lies in exactly one seeded cell, the one with index `floor(x / dx)` |
| SeedingFacts.SpeciesSpecInCell | main.cpp:83-87 | a population that meets its specification for a non-empty cell and canonical draws has every particle inside the cell |
| SeedingFacts.ParticleInCell | main.cpp:83-87 | with canonical draws and `dx > 0`, particle `k` of species `s` in cell `ix` lies in that cell's `[x_min, x_max)` |
| SeedingFacts.SeedPositionsInCell | main.cpp:83-91 | with canonical draws and `dx > 0`, every particle lies in `[x_min, x_max)` of the cell that owns it |
| SeedingFacts.SpeciesSpecWeightSum | main.cpp:82-91 | a population that meets its specification with `ppc > 0` particles has weights adding up to `num_dens * dx` |
| SeedingFacts.SpeciesWeightSum | main.cpp:82-93 | in seeded cell `ix`, the weights of species `s` with `ppc[s] > 0` add up to `num_dens[s] * dx` |
| SeedingFacts.SeedWeightSum | main.cpp:71-97 | in every seeded cell, the weights of every species with `ppc > 0` add up to `num_dens * dx` |
| SeedingFacts.CellDrawOrder | main.cpp:76-93 | the particles of a cell's populations, flattened in storage order, took the cell's draws one after the other: particle `j` sits at the image of draw `j` and is at rest |
| SeedingFacts.CellBlockDrawOrder | main.cpp:71-93 | a cell that meets its specification holds `DrawsPerCell` particles, and its `j`-th particle took draw `CellStart(ix) + j` |
| SeedingFacts.GridParticleCount | main.cpp:71-97 | a grid whose cells each hold `DrawsPerCell` particles holds `CellStart` of its length particles in all, one cell block after the other |
| SeedingFacts.GridParticleAt | main.cpp:71-97 | in such a grid, particle `j` of cell `ix` is at position `CellStart(ix) + j` of the grid's particles in storage order |
| SeedingFacts.GridDrawOrder | main.cpp:71-97 | in a grid whose cells each took their own block of draws in order, the `k`-th particle in storage order took the `k`-th draw |
| SeedingFacts.SeedDrawOrder | main.cpp:71-99 | the seeding holds exactly `TotalDraws` particles (`TotalDrawsClosed` gives that number as `max(nx, 0) * DrawsPerCell`); in storage order (cell, species, particle) particle `k` sits at the image of draw `k` in its cell and is at rest |
| SeedingFacts.SeedReadsOnlyItsDraws | main.cpp:71-99 | the seeded domain depends only on the first `TotalDraws` draws |
| SeedingFacts.SpeciesSpecUnique | main.cpp:77-92 | two populations that meet the same population specification are equal |
| SeedingFacts.CellSpecUnique | main.cpp:72-95 | two cells that meet the same cell specification are equal |
| SeedingLoop.FillSpecies | main.cpp:77-92 | the particle loop, starting from the cleared reused species value, builds exactly `SeedSpecies` for the `ppc[s]` draws after the cursor, and advances the cursor by `max(ppc[s], 0)` |
| SeedingLoop.SpeciesListStep | main.cpp:93-94 | pushing the population just filled from the draws after the first `s` populations' draws extends the cell's list of populations by population `s` |
| SeedingLoop.FillCell | main.cpp:72-95 | the species loop, starting from the cleared reused cell value, builds the cell's bounds and exactly `SeedSpeciesList` for its draws, advances the cursor by one cell's draws, and leaves the reused species value cleared |
| SeedingLoop.GridStep | main.cpp:97-98 | pushing the cell just filled extends the grid of the first `ix` cells by cell `ix` |
| SeedingLoop.SeedDomain | main.cpp:64-99 | the nested loops with reused, cleared accumulators build exactly `Seed(cfg, draws)` and consume exactly `TotalDraws` draws |
| Report.ParseParticleRecords | main.cpp:126-131 | the particle records of a population, followed by a non-particle record or nothing, are read back as that population's particles |
| Report.ParseSpeciesRecords | main.cpp:120-131 | the records of a species list, followed by a cell record or nothing, are read back as that species list |
| Report.ParseCellRecords | main.cpp:116-133 | the records of a grid are read back as that grid |
| Report.Enumerate | main.cpp:106-134 | the traversal is empty exactly when the grid is, and otherwise opens with the first cell's bounds; `ParseEnumerate` and `EnumerateParse` state that it is a lossless, exactly invertible record of the domain |
| Report.ParseEnumerate | main.cpp:106-134 | the enumeration loses nothing: parsing it rebuilds the domain |
| Report.ParticlesParsed | main.cpp:126-131 | whatever the particle reader consumes is the records of the particles it returns |
| Report.SpeciesParsed | main.cpp:120-131 | whatever the species reader consumes is the records of the populations it returns |
| Report.CellsParsed | main.cpp:116-133 | every record sequence the cell reader accepts is the records of the cells it returns |
| Report.EnumerateParse | main.cpp:106-134 | every record sequence the parser accepts is the enumeration of the domain it returns |
| Report.EnumerateParticles | main.cpp:116-131 | the particle records of the enumeration are the domain's particles, one each, in storage order |
| Report.EnumerateLength | main.cpp:116-131 | the enumeration has one record per cell, one per population and one per particle, and no others |
| Pic.CellParticlesAppend | main.cpp:120-131 | flattening a species list distributes over concatenation |
| Pic.GridParticlesAppend | main.cpp:116-131 | flattening a grid distributes over concatenation |
| Pic.SumOfEqualWeights | main.cpp:86 | `n` particles of equal weight `w` weigh `n * w` in all |
| Scenario.MainDraws | main.cpp:54-61 | `main`'s configuration is well formed, reads 9 draws per cell and 45 in all |
| Scenario.MainSeeding | main.cpp:54-99 | `main`'s run seeds 5 cells. Each holds an electron population of 3 and a proton population of 6 particles, with charges `-qe` and `qe`. Each population weighs `1e20 * 10e-9 = 1e12` physical particles |
| Scenario.MainParticles | main.cpp:54-91 | in `main`'s run every electron has weight `1e20 * 10e-9 / 3` and every proton `1e20 * 10e-9 / 6`. Every particle is at rest, and every population carries its species' mass `me` or `mp` |
| Scenario.MainPositions | main.cpp:54-99 | with canonical draws, `main`'s cells tile `[0, 50 nm)` and every particle lies in its own cell |
| Scenario.MainReport | main.cpp:101 | `main`'s report has 60 records (5 cells, 10 populations, 45 particles) and the domain can be read back from it |

## Left out

- Text rendering: the `std::cout` output and the formatting of doubles (main.cpp:117-130) are not modelled. `Enumerate` yields the records in output order; the strings are not modelled.
- Random engine: the `std::default_random_engine` algorithm (main.cpp:64) is a foreign library generator. It is replaced by a supplied sequence of draws. Position facts assume canonical draws in `[0, 1)` (`UnitDraws`).
- Seeding.Uniform: models `uniform_real_distribution` as the affine map `u * (b - a) + a` of a canonical draw. That is how common standard libraries implement it; the library internals are not part of this model.
- Seeding.Uniform: for `dx < 0` (with `nx >= 1`), main.cpp:83-84 builds `uniform_real_distribution(x_min, x_max)` with `x_min > x_max`. That happens even when `ppc[s] <= 0`. It breaks the distribution's precondition `a <= b`, so its behaviour is undefined. The model extends the affine formula to this case and does not model the undefined behaviour.
- Floating point: the model uses exact reals. IEEE-754 rounding is left out. So is the rounding case in which a library's `uniform_real_distribution` returns the upper bound.
- Division by zero: when `ppc[s] == 0` the program computes `num_dens * dx / 0` (main.cpp:82) and never uses the result. The model forms the macro weight only when a particle carries it.
- `species::number_density` (main.cpp:40) is declared but never assigned, so the model leaves it out.
- `current_particle` (main.cpp:69) is reused too, but every field is overwritten before each push. It is not modelled as a separate accumulator.
- Physical constants (main.cpp:13-15) appear only in the `Scenario` module, as exact decimals.
- Seeding.SeedParticles, Seeding.SeedSpeciesList and Seeding.SeedGrid carry no contract of their own. They are sequence comprehensions, and their element facts are stated by `SeedSpeciesMeetsSpec`, `SeedCellMeetsSpec` and `SeedMeetsSpec`.
- Seeding.MacroWeight, Seeding.CellMin and Seeding.CellMax carry no contract of their own. They are single arithmetic expressions; `MacroWeightTotal` and the cell-bound lemmas (`ScaledBounds`, `CellNonEmpty`, `CellsAdjacent`, `CellsDisjoint`) state their facts, which keeps nonlinear real arithmetic out of every caller's context.
