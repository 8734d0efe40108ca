/** The particle-in-cell data model: a domain owns its cells, a cell owns one
    population per species, and a population owns its macro-particles. The
    ownership is a strict tree, so plain immutable datatypes suffice. */
module Pic {

  /** A 3-component velocity. */
  datatype Vec3 = Vec3(x: real, y: real, z: real)

  /** The velocity every particle is seeded with. */
  const Rest := Vec3(0.0, 0.0, 0.0)

  /** A macro-particle: its statistical weight (how many physical particles
      it stands for), its 1-D position and its velocity. */
  datatype Particle = Particle(weight: real, x: real, v: Vec3)

  /** The population of one species inside one cell. The program's `species`
      class also declares a `number_density` member that is never assigned;
      it is not modelled. */
  datatype Species = Species(mass: real, charge: real, name: string, partList: seq<Particle>)

  /** A spatial interval of the domain with its species populations. */
  datatype Cell = Cell(xMin: real, xMax: real, speciesList: seq<Species>)

  /** The whole simulation domain: its cells in storage order. */
  datatype Domain = Domain(grid: seq<Cell>)

  /** All particles of a species list, in storage order. */
  function CellParticles(sl: seq<Species>): seq<Particle>
  {
    if |sl| == 0 then [] else CellParticles(sl[..|sl| - 1]) + sl[|sl| - 1].partList
  }

  /** All particles of a grid, in storage order (cell, then species, then particle). */
  function GridParticles(grid: seq<Cell>): seq<Particle>
  {
    if |grid| == 0 then [] else GridParticles(grid[..|grid| - 1]) + CellParticles(grid[|grid| - 1].speciesList)
  }

  /** Number of species populations held by a grid, summed over its cells. */
  function SpeciesCount(grid: seq<Cell>): nat
  {
    if |grid| == 0 then 0 else SpeciesCount(grid[..|grid| - 1]) + |grid[|grid| - 1].speciesList|
  }

  /** Sum of the weights of a particle list. */
  function SumWeights(ps: seq<Particle>): real
  {
    if |ps| == 0 then 0.0 else SumWeights(ps[..|ps| - 1]) + ps[|ps| - 1].weight
  }

  /** Flattening a species list distributes over concatenation. */
  lemma {:induction false} CellParticlesAppend(a: seq<Species>, b: seq<Species>)
    ensures CellParticles(a + b) == CellParticles(a) + CellParticles(b)
    decreases |b|
  {
    if |b| == 0 {
      assert a + b == a;
    } else {
      var b' := b[..|b| - 1];
      assert (a + b)[..|a + b| - 1] == a + b';
      CellParticlesAppend(a, b');
    }
  }

  /** Flattening a grid distributes over concatenation. */
  lemma {:induction false} GridParticlesAppend(a: seq<Cell>, b: seq<Cell>)
    ensures GridParticles(a + b) == GridParticles(a) + GridParticles(b)
    decreases |b|
  {
    if |b| == 0 {
      assert a + b == a;
    } else {
      var b' := b[..|b| - 1];
      assert (a + b)[..|a + b| - 1] == a + b';
      GridParticlesAppend(a, b');
    }
  }

  /** Counting species populations distributes over concatenation. */
  lemma {:induction false} SpeciesCountAppend(a: seq<Cell>, b: seq<Cell>)
    ensures SpeciesCount(a + b) == SpeciesCount(a) + SpeciesCount(b)
    decreases |b|
  {
    if |b| == 0 {
      assert a + b == a;
    } else {
      var b' := b[..|b| - 1];
      assert (a + b)[..|a + b| - 1] == a + b';
      SpeciesCountAppend(a, b');
    }
  }

  /** A non-empty list is its head followed by its tail. */
  lemma HeadTail<T>(s: seq<T>)
    requires |s| > 0
    ensures [s[0]] + s[1..] == s
  {
  }

  /** Flattening a species list from the front: the first population's
      particles, then the rest. */
  lemma CellParticlesCons(sl: seq<Species>)
    requires |sl| > 0
    ensures CellParticles(sl) == sl[0].partList + CellParticles(sl[1..])
  {
    CellParticlesSingle(sl[0]);
    CellParticlesAppend([sl[0]], sl[1..]);
    HeadTail(sl);
  }

  /** A single population flattens to its own particles. */
  lemma CellParticlesSingle(sp: Species)
    ensures CellParticles([sp]) == sp.partList
  {
    assert [sp][..0] == [];
  }

  /** Flattening a grid from the front: the first cell's particles, then the
      rest. */
  lemma GridParticlesCons(grid: seq<Cell>)
    requires |grid| > 0
    ensures GridParticles(grid) == CellParticles(grid[0].speciesList) + GridParticles(grid[1..])
  {
    GridParticlesSingle(grid[0]);
    GridParticlesAppend([grid[0]], grid[1..]);
    HeadTail(grid);
  }

  /** A single cell flattens to its populations' particles. */
  lemma GridParticlesSingle(c: Cell)
    ensures GridParticles([c]) == CellParticles(c.speciesList)
  {
    assert [c][..0] == [];
  }

  /** Counting populations from the front: the first cell's, then the rest. */
  lemma SpeciesCountCons(grid: seq<Cell>)
    requires |grid| > 0
    ensures SpeciesCount(grid) == |grid[0].speciesList| + SpeciesCount(grid[1..])
  {
    SpeciesCountSingle(grid[0]);
    SpeciesCountAppend([grid[0]], grid[1..]);
    HeadTail(grid);
  }

  /** A single cell holds its own populations. */
  lemma SpeciesCountSingle(c: Cell)
    ensures SpeciesCount([c]) == |c.speciesList|
  {
    assert [c][..0] == [];
  }

  /** A grid whose cells each hold `k` populations holds `|grid| * k` of them. */
  lemma {:induction false} SpeciesCountUniform(grid: seq<Cell>, k: nat)
    requires forall i :: 0 <= i < |grid| ==> |grid[i].speciesList| == k
    ensures SpeciesCount(grid) == |grid| * k
    decreases |grid|
  {
    if |grid| > 0 {
      var prev := grid[..|grid| - 1];
      assert forall i :: 0 <= i < |prev| ==> prev[i] == grid[i];
      SpeciesCountUniform(prev, k);
    }
  }

  /** A list of `n` particles that all carry weight `w` weighs `n * w`. */
  lemma {:induction false} SumOfEqualWeights(ps: seq<Particle>, w: real)
    requires forall k :: 0 <= k < |ps| ==> ps[k].weight == w
    ensures SumWeights(ps) == |ps| as real * w
    decreases |ps|
  {
    if |ps| > 0 {
      SumOfEqualWeights(ps[..|ps| - 1], w);
    }
  }
}
