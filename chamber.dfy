/** The simulation engine: the chamber that owns the particles, seeds them without
    overlap, moves them once per cycle and then notifies its probes; and the probes
    that read the particles after every cycle. */
module Diffusion {
  import opened Particles
  import opened Seeding
  import opened Binning
  import opened Peaks

  /** A registered observer. Notifying a hook runs the updated(cycle) of its probe. */
  datatype Hook =
    | BaseProbe(probe: Probe)
    | ConcentrationProbe(concentration: ConcentrationDensity)
    | EntropyProbe(entropy: SystemEntropy)
  {
    /** The chamber the probe reads. */
    function Observed(): Chamber {
      match this
      case BaseProbe(p) => p.chamber
      case ConcentrationProbe(p) => p.chamber
      case EntropyProbe(p) => p.chamber
    }
  }

  /** The entropy probes among the hooks. */
  ghost function EntropyProbesOf(hs: seq<Hook>): set<SystemEntropy> {
    set k | 0 <= k < |hs| && hs[k].EntropyProbe? :: hs[k].entropy
  }

  lemma EntropyProbesOfAppend(hs: seq<Hook>, h: Hook)
    ensures EntropyProbesOf(hs + [h]) == EntropyProbesOf(hs) + (if h.EntropyProbe? then {h.entropy} else {})
  {
    var hs' := hs + [h];
    forall e ensures e in EntropyProbesOf(hs') <==> e in EntropyProbesOf(hs) || (h.EntropyProbe? && e == h.entropy) {
      if e in EntropyProbesOf(hs') {
        var k :| 0 <= k < |hs'| && hs'[k].EntropyProbe? && hs'[k].entropy == e;
        if k < |hs| {
          assert hs[k] == hs'[k];
        }
      }
      if e in EntropyProbesOf(hs) {
        var k :| 0 <= k < |hs| && hs[k].EntropyProbe? && hs[k].entropy == e;
        assert hs'[k] == hs[k];
      }
      if h.EntropyProbe? && e == h.entropy {
        assert hs'[|hs|] == h;
      }
    }
  }

  class Chamber {
    const width: nat
    const height: nat
    const temperature: real
    var particles: seq<Particle>
    var hooks: seq<Hook>

    /** The particles' positions and colours, in order. */
    ghost function Snapshot(): (s: seq<ParticleState>)
      reads this, particles
      ensures |s| == |particles|
      ensures forall i :: 0 <= i < |particles| ==> s[i] == particles[i].State()
    {
      seq(|particles|, i requires 0 <= i < |particles| reads this, particles => particles[i].State())
    }

    /** Each particle is its own object, every particle lies inside the chamber,
        and every hook observes this chamber. */
    ghost predicate Valid()
      reads this, particles
    {
      && (forall i, j :: 0 <= i < j < |particles| ==> particles[i] != particles[j])
      && InBounds(Snapshot(), width, height)
      && (forall k :: 0 <= k < |hooks| ==> hooks[k].Observed() == this)
    }

    /** The entropy probes registered with this chamber. */
    ghost function EntropyProbes(): set<SystemEntropy>
      reads this
    {
      EntropyProbesOf(hooks)
    }

    /** A size x size chamber seeded with numParticles particles drawn from draws. */
    constructor (size: nat, temperature: real, numParticles: nat, draws: seq<Cell>)
      requires size > 0 || numParticles == 0
      requires forall k :: 0 <= k < |draws| ==> InGrid(draws[k], size, size)
      ensures Valid()
      ensures width == size && height == size && this.temperature == temperature && hooks == []
      ensures forall k :: 0 <= k < |particles| ==> fresh(particles[k])
      ensures Snapshot() == Seed([], numParticles, draws, size / 2)
    {
      width, height := size, size;
      this.temperature := temperature;
      particles, hooks := [], [];
      new;
      InitParticles(numParticles, draws);
    }

    /** Rejection sampling: for each particle, draw cells until a free one comes up,
        then put a particle there, orange left of the midline and blue otherwise.
        The draws are the cells the random generator would produce, in order. */
    method InitParticles(numParticles: nat, draws: seq<Cell>)
      requires Valid()
      requires width > 0 || numParticles == 0
      requires forall k :: 0 <= k < |draws| ==> InGrid(draws[k], width, height)
      modifies this
      ensures Valid() && hooks == old(hooks)
      ensures |particles| >= |old(particles)| && particles[..|old(particles)|] == old(particles)
      ensures forall k :: |old(particles)| <= k < |particles| ==> fresh(particles[k])
      ensures Snapshot() == Seed(old(Snapshot()), numParticles, draws, width / 2)
    {
      var midX := width / 2;
      ghost var target := Seed(Snapshot(), numParticles, draws, midX);
      var next := 0;
      for n := 0 to numParticles
        invariant next <= |draws|
        invariant Valid() && hooks == old(hooks)
        invariant |particles| >= |old(particles)| && particles[..|old(particles)|] == old(particles)
        invariant forall k :: |old(particles)| <= k < |particles| ==> fresh(particles[k])
        invariant Seed(Snapshot(), numParticles - n, draws[next..], midX) == target
      {
        var found, at := DrawFree(draws, next);
        SeedSkipsOccupied(Snapshot(), numParticles - n, draws, next, at, midX);
        if !found {
          return;
        }
        assert draws[at..][1..] == draws[at + 1..];
        Append(draws[at], midX);
        next := at + 1;
      }
    }

    /** One particle's draws: draw a cell from the draws starting at from, and while
        it is occupied draw the next one. Reports the free cell's index, or that the
        draws ran out. */
    method DrawFree(draws: seq<Cell>, from: nat) returns (found: bool, at: nat)
      requires from <= |draws|
      ensures from <= at <= |draws|
      ensures found <==> at < |draws|
      ensures found ==> !Occupied(Snapshot(), draws[at])
      ensures forall k :: from <= k < at ==> Occupied(Snapshot(), draws[k])
    {
      at := from;
      if at == |draws| {
        return false, at;
      }
      var cell := draws[at];
      // draw again while the drawn cell is taken
      var occupied := IsPositionOccupied(cell.x, cell.y);
      while occupied
        invariant from <= at < |draws| && cell == draws[at]
        invariant occupied <==> Occupied(Snapshot(), cell)
        invariant forall k :: from <= k < at ==> Occupied(Snapshot(), draws[k])
        decreases |draws| - at
      {
        at := at + 1;
        if at == |draws| {
          return false, at;
        }
        cell := draws[at];
        occupied := IsPositionOccupied(cell.x, cell.y);
      }
      found := true;
    }

    /** Puts a particle on a free, in-grid cell, coloured by the midline. */
    method Append(cell: Cell, midX: int)
      requires Valid() && InGrid(cell, width, height)
      modifies this
      ensures Valid() && hooks == old(hooks)
      ensures |particles| == |old(particles)| + 1 && particles[..|old(particles)|] == old(particles)
      ensures fresh(particles[|old(particles)|])
      ensures Snapshot() == old(Snapshot()) + [Placed(cell, midX)]
    {
      ghost var before := Snapshot();
      ghost var existing := particles;
      assert forall i, j :: 0 <= i < j < |existing| ==> existing[i] != existing[j];
      var p := new Particle(cell.x, cell.y, if cell.x < midX then Orange else Blue);
      particles := particles + [p];
      forall i, j | 0 <= i < j < |particles|
        ensures particles[i] != particles[j]
      {
        assert particles[i] == existing[i];
        if j < |existing| {
          assert particles[j] == existing[j];
        }
      }
      assert Snapshot() == before + [Placed(cell, midX)];
    }

    /** Appends a probe to the hooks; it is notified after the earlier ones. */
    method AddHook(hook: Hook)
      requires Valid()
      requires hook.Observed() == this
      modifies this
      ensures Valid()
      ensures hooks == old(hooks) + [hook]
      ensures particles == old(particles)
    {
      hooks := hooks + [hook];
    }

    /** Linear scan: some particle sits exactly at (x, y). */
    method IsPositionOccupied(x: int, y: int) returns (occupied: bool)
      ensures occupied <==> Occupied(Snapshot(), Cell(x, y))
    {
      for i := 0 to |particles|
        invariant forall k :: 0 <= k < i ==> !(particles[k].x == x as real && particles[k].y == y as real)
      {
        if particles[i].x == x as real && particles[i].y == y as real {
          return true;
        }
      }
      return false;
    }

    /** One cycle: every particle moves once, with velocity temperature / 100 and
        its own step from steps; then every hook is notified, in order, and sees
        the moved particles. */
    method Update(cycle: int, steps: seq<Step>)
      requires Valid()
      requires |steps| == |particles|
      modifies particles, EntropyProbes()
      ensures Valid()
      ensures Snapshot() == MoveAll(old(Snapshot()), steps, temperature / 100.0, width, height)
      ensures forall e :: e in EntropyProbes() ==>
                e.Maximum() == Record(old(e.Maximum()), e.TotalEntropy(Snapshot()), cycle)
    {
      MoveParticles(steps);
      NotifyHooks(cycle);
    }

    /** The first half of a cycle: particle i moves with step i. */
    method MoveParticles(steps: seq<Step>)
      requires Valid()
      requires |steps| == |particles|
      modifies particles
      ensures Valid()
      ensures Snapshot() == MoveAll(old(Snapshot()), steps, temperature / 100.0, width, height)
    {
      ghost var moved := MoveAll(Snapshot(), steps, temperature / 100.0, width, height);
      for i := 0 to |particles|
        invariant forall k :: 0 <= k < i ==>
                    particles[k].State() == Moved(old(particles[k].State()), steps[k], temperature / 100.0, width, height)
        invariant forall k :: i <= k < |particles| ==> particles[k].State() == old(particles[k].State())
      {
        particles[i].Move(width, height, temperature / 100.0, steps[i].dx, steps[i].dy);
      }
      assert Snapshot() == moved;
    }

    /** The second half of a cycle: each hook in registration order runs its
        updated(cycle); only the entropy probes change state. */
    method NotifyHooks(cycle: int)
      requires Valid()
      modifies EntropyProbes()
      ensures Valid() && Snapshot() == old(Snapshot())
      ensures forall e :: e in EntropyProbes() ==>
                e.Maximum() == Record(old(e.Maximum()), e.TotalEntropy(Snapshot()), cycle)
    {
      ghost var ps := Snapshot();
      for i := 0 to |hooks|
        invariant Valid() && Snapshot() == ps
        invariant forall e :: e in EntropyProbes() ==>
                    e.Maximum() == if e in EntropyProbesOf(hooks[..i])
                                   then Record(old(e.Maximum()), e.TotalEntropy(ps), cycle)
                                   else old(e.Maximum())
      {
        EntropyProbesOfAppend(hooks[..i], hooks[i]);
        assert hooks[..i + 1] == hooks[..i] + [hooks[i]];
        match hooks[i]
        case BaseProbe(p) =>
          p.Updated(cycle);
        case ConcentrationProbe(p) =>
          var orange, blue := p.Updated(cycle);
        case EntropyProbe(p) =>
          assert p in EntropyProbes();
          var total := p.Updated(cycle);
      }
      assert hooks[..|hooks|] == hooks;
    }
  }

  /** The occupancy grids both probes build: cell [i, j] of a colour's grid counts
      the particles of that colour whose (int(x), int(y)) is (i, j). */
  method Bin(chamber: Chamber) returns (orange: array2<nat>, blue: array2<nat>)
    requires chamber.Valid()
    ensures fresh(orange) && fresh(blue)
    ensures GridOf(orange) == Density(chamber.Snapshot(), Orange, chamber.width, chamber.height)
    ensures GridOf(blue) == Density(chamber.Snapshot(), Blue, chamber.width, chamber.height)
  {
    var width, height := chamber.width, chamber.height;
    orange := new nat[width, height]((i, j) => 0);
    blue := new nat[width, height]((i, j) => 0);
    ghost var ps := chamber.Snapshot();
    for k := 0 to |chamber.particles|
      invariant forall i, j :: 0 <= i < width && 0 <= j < height ==>
                  orange[i, j] == CellCount(ps[..k], Orange, i, j) && blue[i, j] == CellCount(ps[..k], Blue, i, j)
    {
      var particle := chamber.particles[k];
      assert ps[..k + 1][..k] == ps[..k] && ps[..k + 1][k] == particle.State();
      BinIndexInRange(particle.x, width);
      BinIndexInRange(particle.y, height);
      var x, y := IntPart(particle.x), IntPart(particle.y);
      match particle.color
      case Orange =>
        orange[x, y] := orange[x, y] + 1;
      case Blue =>
        blue[x, y] := blue[x, y] + 1;
    }
    assert ps[..|chamber.particles|] == ps;
    GridsEqual(GridOf(orange), Density(ps, Orange, width, height));
    GridsEqual(GridOf(blue), Density(ps, Blue, width, height));
  }

  /** The base probe: notified like any other, it does nothing. */
  class Probe {
    const chamber: Chamber

    /** A new probe registers itself with the chamber it reads. */
    constructor (chamber: Chamber)
      requires chamber.Valid()
      modifies chamber
      ensures this.chamber == chamber
      ensures chamber.Valid() && chamber.particles == old(chamber.particles)
      ensures chamber.hooks == old(chamber.hooks) + [BaseProbe(this)]
    {
      this.chamber := chamber;
      new;
      chamber.AddHook(BaseProbe(this));
    }

    method Updated(cycle: int) {
    }
  }

  /** Per-column particle counts of each colour, the two series it plots. */
  class ConcentrationDensity {
    const chamber: Chamber

    /** A new probe registers itself with the chamber it reads. */
    constructor (chamber: Chamber)
      requires chamber.Valid()
      modifies chamber
      ensures this.chamber == chamber
      ensures chamber.Valid() && chamber.particles == old(chamber.particles)
      ensures chamber.hooks == old(chamber.hooks) + [ConcentrationProbe(this)]
    {
      this.chamber := chamber;
      new;
      chamber.AddHook(ConcentrationProbe(this));
    }

    /** The orange and blue concentration series: entry x counts the particles of
        that colour in column x, and each series sums to the number of particles of
        its colour. */
    method Updated(cycle: int) returns (orange: seq<nat>, blue: seq<nat>)
      requires chamber.Valid()
      ensures |orange| == |blue| == chamber.width
      ensures forall i :: 0 <= i < chamber.width ==>
                orange[i] == CountIn(chamber.Snapshot(), Orange, i, i + 1, 0, chamber.height) &&
                blue[i] == CountIn(chamber.Snapshot(), Blue, i, i + 1, 0, chamber.height)
      ensures Sum(orange) == ColourCount(chamber.Snapshot(), Orange)
      ensures Sum(blue) == ColourCount(chamber.Snapshot(), Blue)
    {
      var orangeDensity, blueDensity := Bin(chamber);
      orange := Concentration(GridOf(orangeDensity));
      blue := Concentration(GridOf(blueDensity));
      ConcentrationConserves(chamber.Snapshot(), Orange, chamber.width, chamber.height);
      ConcentrationConserves(chamber.Snapshot(), Blue, chamber.width, chamber.height);
    }
  }

  /** The system entropy of each cycle and the largest one seen, with its cycle. */
  class SystemEntropy {
    const chamber: Chamber
    /** The entropy formula applied to the two probability fields (the per-cell
        Shannon entropy summed over the grid), left uninterpreted. */
    const entropyOf: (Field, Field) -> real
    var maxEntropy: real
    var maxEntropyCycle: int
    /** The totals observed so far, one per call of Updated, in order. */
    ghost var readings: seq<Reading>

    /** A new probe registers itself with the chamber it reads and starts from the
        initial maximum, having observed nothing. */
    constructor (chamber: Chamber, entropyOf: (Field, Field) -> real)
      requires chamber.Valid()
      modifies chamber
      ensures this.chamber == chamber && this.entropyOf == entropyOf
      ensures Maximum() == Initial && readings == [] && Tracks()
      ensures chamber.Valid() && chamber.particles == old(chamber.particles)
      ensures chamber.hooks == old(chamber.hooks) + [EntropyProbe(this)]
    {
      this.chamber := chamber;
      this.entropyOf := entropyOf;
      maxEntropy := 0.0;
      maxEntropyCycle := 0;
      readings := [];
      new;
      chamber.AddHook(EntropyProbe(this));
    }

    function Maximum(): Peak
      reads this
    {
      Peak(maxEntropy, maxEntropyCycle)
    }

    /** The stored maximum is the one the readings so far give from the initial
        maximum, so the lemmas about RecordAll describe this probe. */
    ghost predicate Tracks()
      reads this
    {
      Maximum() == RecordAll(Initial, readings)
    }

    /** The total entropy of a snapshot of the observed chamber. */
    function TotalEntropy(ps: seq<ParticleState>): real {
      var fields := ProbabilityFields(ps, chamber.width, chamber.height);
      entropyOf(fields.0, fields.1)
    }

    /** Computes this cycle's total entropy and records it in the running maximum. */
    method Updated(cycle: int) returns (totalEntropy: real)
      requires chamber.Valid()
      modifies this
      ensures totalEntropy == TotalEntropy(chamber.Snapshot())
      ensures Maximum() == Record(old(Maximum()), totalEntropy, cycle)
      ensures readings == old(readings) + [Reading(totalEntropy, cycle)]
      ensures old(Tracks()) ==> Tracks()
    {
      var orangeDensity, blueDensity := Bin(chamber);
      var probabilities := Probabilities(GridOf(orangeDensity), GridOf(blueDensity));
      totalEntropy := entropyOf(probabilities.0, probabilities.1);
      if totalEntropy > maxEntropy {
        maxEntropy := totalEntropy;
        maxEntropyCycle := cycle;
      }
      RecordAllStep(Initial, readings, Reading(totalEntropy, cycle));
      readings := readings + [Reading(totalEntropy, cycle)];
    }
  }
}
