/** Particles of the diffusion chamber: their colour, their state as a value,
    the one-step motion rule, and the mutable Particle object. */
module Particles {

  /** The two species; a particle's colour is fixed when it is created. */
  datatype Color = Orange | Blue

  /** What an observer can read of a particle: its position and colour. */
  datatype ParticleState = ParticleState(x: real, y: real, color: Color)

  /** One axis of a random step: a draw from [-1, 0, 1]. */
  type Direction = d: int | -1 <= d <= 1

  /** The two per-axis draws a particle makes in one move. */
  datatype Step = Step(dx: Direction, dy: Direction)

  /** Every particle lies in the half-open rectangle [0, width) x [0, height). */
  ghost predicate InBounds(ps: seq<ParticleState>, width: int, height: int) {
    forall i :: 0 <= i < |ps| ==>
      0.0 <= ps[i].x < width as real && 0.0 <= ps[i].y < height as real
  }

  /** One axis of a move: the proposal coord + d*velocity is taken when it
      lies in [0, max), otherwise the coordinate stays where it was. */
  function Advance(coord: real, d: Direction, velocity: real, max: int): (r: real)
    ensures r == coord || r == coord + d as real * velocity
    ensures 0.0 <= coord + d as real * velocity < max as real ==> r == coord + d as real * velocity
    ensures r != coord ==> 0.0 <= r < max as real
    ensures 0.0 <= coord < max as real ==> 0.0 <= r < max as real
  {
    var proposal := coord + d as real * velocity;
    if 0.0 <= proposal < max as real then proposal else coord
  }

  /** A particle after one move inside a max_x by max_y chamber. */
  function Moved(p: ParticleState, s: Step, velocity: real, maxX: int, maxY: int): ParticleState {
    ParticleState(Advance(p.x, s.dx, velocity, maxX), Advance(p.y, s.dy, velocity, maxY), p.color)
  }

  /** Every particle moved once, particle i with step i. */
  function MoveAll(ps: seq<ParticleState>, steps: seq<Step>, velocity: real, width: int, height: int): (r: seq<ParticleState>)
    requires |steps| == |ps|
    ensures |r| == |ps|
    ensures forall i :: 0 <= i < |ps| ==> r[i].color == ps[i].color
    ensures InBounds(ps, width, height) ==> InBounds(r, width, height)
    ensures velocity == 0.0 ==> r == ps
  {
    seq(|ps|, i requires 0 <= i < |ps| => Moved(ps[i], steps[i], velocity, width, height))
  }

  class Particle {
    var x: real
    var y: real
    const color: Color

    constructor (x: int, y: int, color: Color)
      ensures State() == ParticleState(x as real, y as real, color)
    {
      this.x := x as real;
      this.y := y as real;
      this.color := color;
    }

    function State(): ParticleState
      reads this
    {
      ParticleState(x, y, color)
    }

    /** A bounded random-walk step; dx and dy are the two draws from [-1, 0, 1]. */
    method Move(maxX: int, maxY: int, velocity: real, dx: Direction, dy: Direction)
      modifies this
      ensures State() == Moved(old(State()), Step(dx, dy), velocity, maxX, maxY)
    {
      var newX := x + dx as real * velocity;
      var newY := y + dy as real * velocity;
      if 0.0 <= newX < maxX as real {
        x := newX;
      }
      if 0.0 <= newY < maxY as real {
        y := newY;
      }
    }
  }
}
