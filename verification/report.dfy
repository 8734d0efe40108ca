/** Enumeration of a domain for inspection: one record per cell (its
    bounds), per species population (name, mass, charge) and per particle
    (weight, position, velocity), in storage order. The text rendering of
    the records is not modelled.

    The partner of the enumeration is a parser that rebuilds the domain from
    the records; the two are inverse to each other. */
module Report {
  import opened Pic

  /** One line of the report, without its text formatting. */
  datatype Record =
    | CellRecord(xMin: real, xMax: real)
    | SpeciesRecord(name: string, mass: real, charge: real)
    | ParticleRecord(weight: real, x: real, v: Vec3)

  datatype Option<T> = None | Some(value: T)

  /** The records of a particle list. */
  function ParticleRecords(ps: seq<Particle>): (rs: seq<Record>)
    ensures |rs| == |ps|
  {
    if |ps| == 0 then []
    else [ParticleRecord(ps[0].weight, ps[0].x, ps[0].v)] + ParticleRecords(ps[1..])
  }

  /** The records of a species list: each header followed by its particles. */
  function SpeciesRecords(sl: seq<Species>): (rs: seq<Record>)
    ensures |rs| > 0 ==> rs[0].SpeciesRecord?
  {
    if |sl| == 0 then []
    else [SpeciesRecord(sl[0].name, sl[0].mass, sl[0].charge)] + ParticleRecords(sl[0].partList) + SpeciesRecords(sl[1..])
  }

  /** The records of a grid: each cell header followed by its populations. */
  function CellRecords(grid: seq<Cell>): (rs: seq<Record>)
    ensures |rs| > 0 ==> rs[0].CellRecord?
  {
    if |grid| == 0 then []
    else [CellRecord(grid[0].xMin, grid[0].xMax)] + SpeciesRecords(grid[0].speciesList) + CellRecords(grid[1..])
  }

  /** The traversal of `domain::print_particles`: cells in storage order,
      within each its species in order, within each its particles in order. */
  function Enumerate(d: Domain): (rs: seq<Record>)
    ensures |rs| > 0 <==> |d.grid| > 0
    ensures |d.grid| > 0 ==> rs[0] == CellRecord(d.grid[0].xMin, d.grid[0].xMax)
  {
    CellRecords(d.grid)
  }

  /** Reads the particle records at the head of `rs`; returns them and the
      records after them. */
  function ParseParticles(rs: seq<Record>): (r: (seq<Particle>, seq<Record>))
    ensures |r.1| <= |rs|
    ensures r.1 == [] || !r.1[0].ParticleRecord?
    decreases |rs|
  {
    if |rs| > 0 && rs[0].ParticleRecord? then
      var (ps, rest) := ParseParticles(rs[1..]);
      ([Particle(rs[0].weight, rs[0].x, rs[0].v)] + ps, rest)
    else ([], rs)
  }

  /** Reads the species headers, each with its particles, at the head of
      `rs`; returns the populations and the records after them. */
  function ParseSpecies(rs: seq<Record>): (r: (seq<Species>, seq<Record>))
    ensures |r.1| <= |rs|
    decreases |rs|
  {
    if |rs| > 0 && rs[0].SpeciesRecord? then
      var (ps, afterParticles) := ParseParticles(rs[1..]);
      var (sl, rest) := ParseSpecies(afterParticles);
      ([Species(rs[0].mass, rs[0].charge, rs[0].name, ps)] + sl, rest)
    else ([], rs)
  }

  /** Reads a whole record sequence as a list of cells; fails unless every
      record belongs to a cell and every particle record to a species. */
  function ParseCells(rs: seq<Record>): Option<seq<Cell>>
    decreases |rs|
  {
    if |rs| == 0 then Some([])
    else if rs[0].CellRecord? then
      var (sl, rest) := ParseSpecies(rs[1..]);
      match ParseCells(rest)
      case None => None
      case Some(cells) => Some([Cell(rs[0].xMin, rs[0].xMax, sl)] + cells)
    else None
  }

  /** Rebuilds a domain from its enumeration. */
  function Parse(rs: seq<Record>): Option<Domain>
  {
    match ParseCells(rs)
    case None => None
    case Some(cells) => Some(Domain(cells))
  }

  /** A header followed by two runs of records: the header comes first and
      the runs follow it. */
  lemma HeadThen(h: Record, a: seq<Record>, b: seq<Record>)
    ensures ([h] + a + b)[0] == h
    ensures ([h] + a + b)[1..] == a + b
  {
  }

  lemma {:induction false} ParseParticleRecords(ps: seq<Particle>, tail: seq<Record>)
    requires tail == [] || !tail[0].ParticleRecord?
    ensures ParseParticles(ParticleRecords(ps) + tail) == (ps, tail)
    decreases |ps|
  {
    if |ps| > 0 {
      var h := ParticleRecord(ps[0].weight, ps[0].x, ps[0].v);
      HeadThen(h, ParticleRecords(ps[1..]), tail);
      ParseParticleRecords(ps[1..], tail);
      assert Particle(ps[0].weight, ps[0].x, ps[0].v) == ps[0];
      HeadTail(ps);
    } else {
      assert ParticleRecords(ps) + tail == tail;
    }
  }

  lemma {:induction false} ParseSpeciesRecords(sl: seq<Species>, tail: seq<Record>)
    requires tail == [] || tail[0].CellRecord?
    ensures ParseSpecies(SpeciesRecords(sl) + tail) == (sl, tail)
    decreases |sl|
  {
    if |sl| > 0 {
      var h := SpeciesRecord(sl[0].name, sl[0].mass, sl[0].charge);
      var own := ParticleRecords(sl[0].partList);
      var later := SpeciesRecords(sl[1..]);
      var rest := later + tail;
      assert SpeciesRecords(sl) + tail == [h] + own + rest;
      HeadThen(h, own, rest);
      assert rest == [] || !rest[0].ParticleRecord? by {
        if |later| == 0 {
          assert rest == tail;
        } else {
          assert rest[0] == later[0];
        }
      }
      ParseParticleRecords(sl[0].partList, rest);
      ParseSpeciesRecords(sl[1..], tail);
      assert Species(sl[0].mass, sl[0].charge, sl[0].name, sl[0].partList) == sl[0];
      HeadTail(sl);
    } else {
      assert SpeciesRecords(sl) + tail == tail;
    }
  }

  lemma {:induction false} ParseCellRecords(cells: seq<Cell>)
    ensures ParseCells(CellRecords(cells)) == Some(cells)
    decreases |cells|
  {
    if |cells| > 0 {
      var h := CellRecord(cells[0].xMin, cells[0].xMax);
      var own := SpeciesRecords(cells[0].speciesList);
      var rest := CellRecords(cells[1..]);
      HeadThen(h, own, rest);
      ParseSpeciesRecords(cells[0].speciesList, rest);
      ParseCellRecords(cells[1..]);
      assert Cell(cells[0].xMin, cells[0].xMax, cells[0].speciesList) == cells[0];
      HeadTail(cells);
    }
  }

  /** The enumeration loses nothing: the domain is rebuilt from its records. */
  lemma ParseEnumerate(d: Domain)
    ensures Parse(Enumerate(d)) == Some(d)
  {
    ParseCellRecords(d.grid);
  }

  lemma {:induction false} ParticlesParsed(rs: seq<Record>)
    ensures ParticleRecords(ParseParticles(rs).0) + ParseParticles(rs).1 == rs
    decreases |rs|
  {
    if |rs| > 0 && rs[0].ParticleRecord? {
      ParticlesParsed(rs[1..]);
      var (ps, rest) := ParseParticles(rs[1..]);
      var p := Particle(rs[0].weight, rs[0].x, rs[0].v);
      assert ([p] + ps)[1..] == ps;
    }
  }

  lemma {:induction false} SpeciesParsed(rs: seq<Record>)
    ensures SpeciesRecords(ParseSpecies(rs).0) + ParseSpecies(rs).1 == rs
    decreases |rs|
  {
    if |rs| > 0 && rs[0].SpeciesRecord? {
      var (ps, afterParticles) := ParseParticles(rs[1..]);
      ParticlesParsed(rs[1..]);
      SpeciesParsed(afterParticles);
      var (sl, rest) := ParseSpecies(afterParticles);
      var sp := Species(rs[0].mass, rs[0].charge, rs[0].name, ps);
      assert ([sp] + sl)[1..] == sl;
    }
  }

  lemma {:induction false} CellsParsed(rs: seq<Record>)
    requires ParseCells(rs).Some?
    ensures CellRecords(ParseCells(rs).value) == rs
    decreases |rs|
  {
    if |rs| > 0 {
      var (sl, rest) := ParseSpecies(rs[1..]);
      SpeciesParsed(rs[1..]);
      CellsParsed(rest);
      var c := Cell(rs[0].xMin, rs[0].xMax, sl);
      var cells := ParseCells(rest).value;
      assert ParseCells(rs).value == [c] + cells;
      HeadTail([c] + cells);
      var out := [CellRecord(rs[0].xMin, rs[0].xMax)] + SpeciesRecords(sl) + CellRecords(cells);
      assert CellRecords([c] + cells) == out;
      HeadThen(rs[0], SpeciesRecords(sl), CellRecords(cells));
      HeadTail(out);
      HeadTail(rs);
    }
  }

  /** Every record sequence the parser accepts is the enumeration of the
      domain it yields. */
  lemma EnumerateParse(rs: seq<Record>)
    requires Parse(rs).Some?
    ensures Enumerate(Parse(rs).value) == rs
  {
    CellsParsed(rs);
  }

  /** The particles that the particle records of `rs` describe, in order. */
  function ParticlesOf(rs: seq<Record>): seq<Particle>
  {
    if |rs| == 0 then []
    else if rs[0].ParticleRecord? then [Particle(rs[0].weight, rs[0].x, rs[0].v)] + ParticlesOf(rs[1..])
    else ParticlesOf(rs[1..])
  }

  lemma {:induction false} ParticlesOfAppend(a: seq<Record>, b: seq<Record>)
    ensures ParticlesOf(a + b) == ParticlesOf(a) + ParticlesOf(b)
    decreases |a|
  {
    if |a| == 0 {
      assert a + b == b;
    } else {
      assert (a + b)[1..] == a[1..] + b;
      ParticlesOfAppend(a[1..], b);
    }
  }

  lemma {:induction false} ParticlesOfParticleRecords(ps: seq<Particle>)
    ensures ParticlesOf(ParticleRecords(ps)) == ps
    decreases |ps|
  {
    if |ps| > 0 {
      var rs := ParticleRecords(ps);
      assert rs[1..] == ParticleRecords(ps[1..]);
      ParticlesOfParticleRecords(ps[1..]);
      HeadTail(ps);
    }
  }

  lemma {:induction false} ParticlesOfSpeciesRecords(sl: seq<Species>)
    ensures ParticlesOf(SpeciesRecords(sl)) == CellParticles(sl)
    decreases |sl|
  {
    if |sl| > 0 {
      var header := [SpeciesRecord(sl[0].name, sl[0].mass, sl[0].charge)];
      var own := ParticleRecords(sl[0].partList);
      var rest := SpeciesRecords(sl[1..]);
      assert SpeciesRecords(sl) == header + (own + rest);
      ParticlesOfAppend(header, own + rest);
      ParticlesOfAppend(own, rest);
      ParticlesOfParticleRecords(sl[0].partList);
      ParticlesOfSpeciesRecords(sl[1..]);
      CellParticlesCons(sl);
    }
  }

  lemma {:induction false} ParticlesOfCellRecords(grid: seq<Cell>)
    ensures ParticlesOf(CellRecords(grid)) == GridParticles(grid)
    decreases |grid|
  {
    if |grid| > 0 {
      var header := [CellRecord(grid[0].xMin, grid[0].xMax)];
      var own := SpeciesRecords(grid[0].speciesList);
      var rest := CellRecords(grid[1..]);
      assert CellRecords(grid) == header + (own + rest);
      ParticlesOfAppend(header, own + rest);
      ParticlesOfAppend(own, rest);
      ParticlesOfSpeciesRecords(grid[0].speciesList);
      ParticlesOfCellRecords(grid[1..]);
      GridParticlesCons(grid);
    }
  }

  /** The particle records of the enumeration are exactly the domain's
      particles, one per particle, in storage order. */
  lemma EnumerateParticles(d: Domain)
    ensures ParticlesOf(Enumerate(d)) == GridParticles(d.grid)
  {
    ParticlesOfCellRecords(d.grid);
  }

  lemma {:induction false} SpeciesRecordsLength(sl: seq<Species>)
    ensures |SpeciesRecords(sl)| == |sl| + |CellParticles(sl)|
    decreases |sl|
  {
    if |sl| > 0 {
      SpeciesRecordsLength(sl[1..]);
      CellParticlesCons(sl);
    }
  }

  lemma {:induction false} CellRecordsLength(grid: seq<Cell>)
    ensures |CellRecords(grid)| == |grid| + SpeciesCount(grid) + |GridParticles(grid)|
    decreases |grid|
  {
    if |grid| > 0 {
      SpeciesRecordsLength(grid[0].speciesList);
      CellRecordsLength(grid[1..]);
      GridParticlesCons(grid);
      SpeciesCountCons(grid);
    }
  }

  /** The enumeration emits one record per cell, one per species population
      and one per particle, and nothing else. */
  lemma EnumerateLength(d: Domain)
    ensures |Enumerate(d)| == |d.grid| + SpeciesCount(d.grid) + |GridParticles(d.grid)|
  {
    CellRecordsLength(d.grid);
  }
}
