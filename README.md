# Two-species diffusion chamber, modelled in Dafny

This project models the simulation engine of a two-species diffusion simulator. A
square chamber holds a fixed population of orange and blue particles. Each particle
does a bounded random walk: on each axis it proposes a step of -1, 0 or +1 times
the velocity, and it takes the step only when the new coordinate stays inside the
chamber. The chamber is seeded without overlap by rejection sampling. Particles
left of the midline are orange and the others are blue. Once per cycle the chamber
moves every particle and then notifies its registered probes:

- the concentration probe bins the particles into one occupancy grid per colour and
  sums each grid along y into a per-column series;
- the entropy probe turns the same grids into per-cell mixing probabilities, feeds
  them to the entropy formula and keeps the largest total seen, with the cycle in
  which that total was first reached.

Files and modules:

- `particle.dfy` (`Particles`): colours, the value `ParticleState`, the one-axis
  rule `Advance`, the whole-population step `MoveAll`, and the mutable `Particle`
  class with `Move`.
- `seeding.dfy` (`Seeding`): rejection sampling as a function `Seed` over a
  sequence of drawn cells, with its lemmas: only appends, no overlap, on grid
  cells, midline colouring, and when the draws are enough.
- `binning.dfy` (`Binning`): Python's `int()` on a float, the per-colour occupancy
  grids, the column sums and their conservation law, and the per-cell
  probabilities.
- `peak.dfy` (`Peaks`): the running maximum of the entropy as a state machine, and
  lemmas about any sequence of readings.
- `chamber.dfy` (`Diffusion`): the `Chamber` class (seeding, occupancy scan, hook
  registration, update) and the three probe classes, with the hook dispatch.

The random draws become parameters. `Particle.Move` takes its two directions
`dx, dy` in {-1, 0, 1}. `Chamber.Update` takes one `Step` per particle. Seeding
takes the sequence of candidate cells that `random.randint` would produce.

The entropy formula (per-cell `-p*log2(p + 1e-9)` summed over the grid) is floating
point with logarithms. It is kept as a function value `entropyOf` of the entropy
probe and applied to the two probability fields the probe computes.

Where the program's stated design and its code differ, the model follows the code:

- The design has construction fail with a capacity or configuration error when the
  particles do not fit. The code checks nothing: with more particles than cells the
  seeding loop draws forever, and only a chamber of size 0 with particles wanted
  fails, because `random.randint(0, -1)` raises on the empty range.
- The design bins each particle at its rounded position. The code uses `int()`, which
  truncates; this is the floor for the non-negative positions that occur.
- The docstring of `move` promises a returned tuple (diffusion.py:132-133). The code
  returns nothing, and so does `Particle.Move`.
- The design treats the registered probes as a set. The code appends to a list, so a
  probe can be registered twice, and the model allows that too.

## Model

| member | source | states |
|---|---|---|
| `Particles.Advance` | diffusion.py:135-140 | the new coordinate is the old one or old + d*velocity; the proposal is taken whenever it lies in [0, max); a change only ever lands in [0, max); a coordinate in [0, max) stays in [0, max) |
| `Particles.MoveAll` | diffusion.py:103-104 | moving every particle keeps their number and every colour, keeps an in-bounds population in bounds, and with velocity 0 changes nothing |
| `Particles.Particle.constructor` | diffusion.py:110-121 | a new particle sits at the given integer position with the given colour |
| `Particles.Particle.Move` | diffusion.py:123-140 | each axis of the particle is updated as `Advance` says, from the two draws, and the colour is unchanged |
| `Seeding.Seed` | diffusion.py:70-78 | rejection sampling over the draws: it stops once the number asked for is placed or the draws run out, skips occupied cells, and places at most the number asked for |
| `Seeding.SeedExtends` | diffusion.py:70-78 | seeding only appends to the existing particles, and each new particle is the one placed on some drawn cell |
| `Seeding.SeedSkipsOccupied` | diffusion.py:75-77 | a run of draws that all hit occupied cells places nothing and is simply consumed |
| `Seeding.SeedKeepsApart` | diffusion.py:74-78 | if no two existing particles share a position, no two share one after seeding |
| `Seeding.SeedFills` | diffusion.py:71-78 | when the draws contain at least as many distinct free cells as particles are wanted, seeding places all of them |
| `Seeding.SeededChamber` | diffusion.py:63-78 | seeding an empty chamber gives at most n particles, each on an integer cell inside the grid, orange exactly when x < width // 2, with no two on one cell, and exactly n when the draws contain n distinct cells |
| `Binning.IntPart` | diffusion.py:187 | `int()` of a non-negative coordinate is the integer below it (its floor); of a negative one, the integer above it |
| `Binning.BinIndexInRange` | diffusion.py:187-189 | a coordinate in [0, max) bins to an index in [0, max), so an in-bounds particle always lands inside the grid |
| `Binning.Density` | diffusion.py:182-189 | the occupancy grid of a colour is width by height, and cell (i, j) counts the particles of that colour whose `(int(x), int(y))` is (i, j) |
| `Binning.ConcentrationConserves` | diffusion.py:182-194 | with every particle inside the chamber, the column series of a colour has width entries, entry i counts that colour's particles in column i, and the series sums to the number of particles of that colour |
| `Binning.CellProbabilities` | diffusion.py:234-239 | an empty cell has probabilities 0 and 0; otherwise the two probabilities lie in [0, 1] and add up to 1; each is the colour's share of the cell's particles |
| `Binning.Probabilities` | diffusion.py:234-239 | the two probability fields have the grids' shape, and every cell is 0 and 0 when empty, and otherwise two values in [0, 1] that sum to 1 |
| `Peaks.Record` | diffusion.py:246-248 | the stored maximum never decreases and is at least the new total; it changes exactly when the total strictly exceeds it, and then the stored cycle is this cycle |
| `Peaks.RecordAllStep` | diffusion.py:246-248 | observing one more cycle is one more `Record` step on the maximum of the earlier cycles |
| `Peaks.RecordAllMonotone` | diffusion.py:246-248 | over any run of cycles, the maximum after more cycles is at least the maximum after fewer |
| `Peaks.RecordAllIsMaximum` | diffusion.py:246-248 | after any run of cycles the stored maximum is the largest of the starting value and all totals seen |
| `Peaks.RecordAllCycle` | diffusion.py:246-248 | the stored cycle is unchanged unless some total strictly exceeded the starting maximum, and then it is the cycle of the first total that reached the final maximum |
| `Diffusion.Chamber.constructor` | diffusion.py:48-61 | a size by size chamber with the given temperature, no hooks, and exactly the particles rejection sampling places from the draws |
| `Diffusion.Chamber.InitParticles` | diffusion.py:63-78 | keeps the existing particles and appends exactly what rejection sampling over the draws places; the chamber stays valid (distinct objects, all in bounds) |
| `Diffusion.Chamber.DrawFree` | diffusion.py:72-77 | the draw loop for one particle stops at the first free drawn cell; every cell drawn before it is occupied; it reports when the draws run out |
| `Diffusion.Chamber.Append` | diffusion.py:78 | appends one new particle on the drawn cell, coloured by the midline, leaving the other particles as they were |
| `Diffusion.Chamber.AddHook` | diffusion.py:80-81 | the hook is appended after all earlier hooks and the particles are untouched |
| `Diffusion.Probe.constructor` | diffusion.py:143-152 | a new base probe reads the given chamber and is appended to its hooks; the particles are untouched |
| `Diffusion.ConcentrationDensity.constructor` | diffusion.py:165-173 | a new concentration probe reads the given chamber and is appended to its hooks; the particles are untouched |
| `Diffusion.Chamber.IsPositionOccupied` | diffusion.py:83-97 | true exactly when some particle sits at exactly (x, y); it changes nothing |
| `Diffusion.Chamber.Update` | diffusion.py:99-107 | every particle moves once with velocity temperature / 100 and its own step; the number of particles and their colours are kept, and all stay in bounds; then each entropy probe records the total entropy of the moved particles |
| `Diffusion.Chamber.MoveParticles` | diffusion.py:103-104 | particle i ends where `Moved` puts it with step i, and every particle stays in bounds |
| `Diffusion.Chamber.NotifyHooks` | diffusion.py:106-107 | notifying the hooks leaves the particles unchanged and leaves each registered entropy probe with its maximum updated once by this cycle's total, even when it is registered twice |
| `Diffusion.Bin` | diffusion.py:182-189 | the two arrays are the orange and blue occupancy grids of the chamber's current particles |
| `Diffusion.ConcentrationDensity.Updated` | diffusion.py:175-194 | the orange and blue series have one entry per column, count each colour per column, and sum to the number of orange and of blue particles |
| `Diffusion.SystemEntropy.constructor` | diffusion.py:204-215 | the probe is appended to the chamber's hooks and starts with maximum entropy 0 at cycle 0, having observed no cycle |
| `Diffusion.SystemEntropy.Updated` | diffusion.py:217-248 | the total is the entropy formula applied to the probability fields of the current particles, the running maximum is updated by `Record`, and the maximum stays the `RecordAll` of every total observed since construction, so the `RecordAll` lemmas hold of the probe |

## Left out

- The animation wrapper (figure set-up, the scatter plot, the animation timer) is not modelled. It only renders the particles.
- The particle count `int(0.8 * size * size)` computed by that wrapper is left out. The count is a parameter of the chamber.
- The drawing calls on the scope screen (clear, plot, labels, legend, title text) are left out. `ConcentrationDensity.Updated` returns the two series it would plot, and `SystemEntropy.Updated` returns the total it would show in the title.
- The entropy formula with `log2` and the `1e-9` offset is floating point with logarithms. It is the uninterpreted function `entropyOf`.
- Positions are exact reals. Python floats round when `temperature / 100` is added repeatedly; that rounding is not modelled.
- Random draws (`random.randint`, `random.choice`) are parameters, not a generator.
- `Diffusion.Chamber.AddHook` requires that the hook observe this chamber. The probe constructors, the only callers in the source, always register a probe with its own chamber.
- `Diffusion.Chamber.InitParticles`: the draws are a finite sequence. If they run out before all particles are placed, the model stops with fewer particles. The source keeps drawing: it ends with probability 1 when the count is at most width*height, and draws forever when the count is larger and the size is positive. `Seeding.SeedFills` states when finite draws are enough.
- `Diffusion.Chamber.constructor`: a chamber of size 0 with particles wanted is excluded by a precondition, as is `InitParticles` on a chamber of width 0. The source raises `ValueError` there, from `random.randint(0, -1)`, and the model has no constructor that fails.
- `Diffusion.Chamber.NotifyHooks`: the contract does not state the order in which hooks run. The loop visits them in registration order, but probes only read the chamber and each changes only its own state, so no order is observable in the model.
- `Diffusion.Probe.Updated` (the base observer) does nothing and has no contract.
- After seeding, nothing prevents two particles from sharing a cell, as in the source. Both grids count such particles separately.
