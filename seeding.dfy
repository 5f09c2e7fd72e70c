/** Collision-free seeding of the chamber by rejection sampling, as a value-level
    specification: the candidate cells are the random draws, supplied in order. */
module Seeding {
  import opened Particles

  /** One candidate cell: a draw of x in [0, width) followed by one of y in [0, height). */
  datatype Cell = Cell(x: int, y: int)

  predicate InGrid(c: Cell, width: int, height: int) {
    0 <= c.x < width && 0 <= c.y < height
  }

  /** Some particle sits exactly on the cell (the occupancy test of seeding). */
  predicate Occupied(ps: seq<ParticleState>, c: Cell) {
    exists i :: 0 <= i < |ps| && ps[i].x == c.x as real && ps[i].y == c.y as real
  }

  /** The particle seeding puts on a free cell: orange left of the midline, blue from it on. */
  function Placed(c: Cell, midX: int): ParticleState {
    ParticleState(c.x as real, c.y as real, if c.x < midX then Orange else Blue)
  }

  /** Rejection sampling: while particles are still wanted, take the next draw,
      skip it when its cell is occupied and otherwise place a particle on it.
      Seeding stops when enough particles are placed or the draws run out. */
  function Seed(placed: seq<ParticleState>, want: nat, draws: seq<Cell>, midX: int): (r: seq<ParticleState>)
    ensures |placed| <= |r| <= |placed| + want
    decreases |draws|
  {
    if want == 0 || draws == [] then placed
    else if Occupied(placed, draws[0]) then Seed(placed, want, draws[1..], midX)
    else Seed(placed + [Placed(draws[0], midX)], want - 1, draws[1..], midX)
  }

  /** Occupied draws are skipped without placing anything. */
  lemma {:induction false} SeedSkipsOccupied(placed: seq<ParticleState>, want: nat, draws: seq<Cell>, from: nat, at: nat, midX: int)
    requires want > 0 && from <= at <= |draws|
    requires forall k :: from <= k < at ==> Occupied(placed, draws[k])
    ensures Seed(placed, want, draws[from..], midX) == Seed(placed, want, draws[at..], midX)
    decreases at - from
  {
    if from < at {
      assert draws[from..][1..] == draws[from + 1..];
      SeedSkipsOccupied(placed, want, draws, from + 1, at, midX);
    }
  }

  /** No two particles share a position. */
  ghost predicate NoOverlap(ps: seq<ParticleState>) {
    forall i, j :: 0 <= i < j < |ps| ==> ps[i].x != ps[j].x || ps[i].y != ps[j].y
  }

  /** The particle sits on an integer cell. */
  ghost predicate OnCell(p: ParticleState) {
    p.x == p.x.Floor as real && p.y == p.y.Floor as real
  }

  /** The colour is orange exactly when x lies left of the midline. */
  ghost predicate MidlineColoured(p: ParticleState, midX: int) {
    p.color == (if p.x < midX as real then Orange else Blue)
  }

  /** The distinct drawn cells that no particle of placed occupies. */
  ghost function FreshCells(placed: seq<ParticleState>, draws: seq<Cell>): set<Cell> {
    set c | c in draws && !Occupied(placed, c)
  }

  /** Seeding only appends to placed, and each particle it adds is the one placed
      on some drawn cell. */
  lemma {:induction false} SeedExtends(placed: seq<ParticleState>, want: nat, draws: seq<Cell>, midX: int)
    ensures Seed(placed, want, draws, midX)[..|placed|] == placed
    ensures forall k :: |placed| <= k < |Seed(placed, want, draws, midX)| ==>
              exists d :: d in draws && Seed(placed, want, draws, midX)[k] == Placed(d, midX)
    decreases |draws|
  {
    if want == 0 || draws == [] {
      assert Seed(placed, want, draws, midX) == placed;
    } else if Occupied(placed, draws[0]) {
      var r := Seed(placed, want, draws[1..], midX);
      assert Seed(placed, want, draws, midX) == r;
      SeedExtends(placed, want, draws[1..], midX);
      forall k | |placed| <= k < |r|
        ensures exists d :: d in draws && r[k] == Placed(d, midX)
      {
        var d :| d in draws[1..] && r[k] == Placed(d, midX);
      }
    } else {
      var p := Placed(draws[0], midX);
      var r := Seed(placed + [p], want - 1, draws[1..], midX);
      assert Seed(placed, want, draws, midX) == r;
      SeedExtends(placed + [p], want - 1, draws[1..], midX);
      assert r[..|placed| + 1] == placed + [p];
      assert r[..|placed|] == (placed + [p])[..|placed|] == placed;
      forall k | |placed| <= k < |r|
        ensures exists d :: d in draws && r[k] == Placed(d, midX)
      {
        if k == |placed| {
          assert r[k] == (placed + [p])[k] == p;
        } else {
          var d :| d in draws[1..] && r[k] == Placed(d, midX);
        }
      }
    }
  }

  /** Seeding never places a particle on an occupied position. */
  lemma {:induction false} SeedKeepsApart(placed: seq<ParticleState>, want: nat, draws: seq<Cell>, midX: int)
    requires NoOverlap(placed)
    ensures NoOverlap(Seed(placed, want, draws, midX))
    decreases |draws|
  {
    if want == 0 || draws == [] {
    } else if Occupied(placed, draws[0]) {
      SeedKeepsApart(placed, want, draws[1..], midX);
    } else {
      var p := Placed(draws[0], midX);
      var next := placed + [p];
      forall i, j | 0 <= i < j < |next|
        ensures next[i].x != next[j].x || next[i].y != next[j].y
      {
        if j == |placed| {
          assert next[i] == placed[i];
        }
      }
      SeedKeepsApart(next, want - 1, draws[1..], midX);
    }
  }

  /** Placing a particle on a free drawn cell removes exactly that cell from the fresh ones. */
  lemma FreshAfterPlacing(placed: seq<ParticleState>, draws: seq<Cell>, midX: int)
    requires draws != [] && !Occupied(placed, draws[0])
    ensures FreshCells(placed + [Placed(draws[0], midX)], draws[1..]) == FreshCells(placed, draws) - {draws[0]}
  {
    var d := draws[0];
    var next := placed + [Placed(d, midX)];
    forall c ensures Occupied(next, c) <==> Occupied(placed, c) || c == d {
      if Occupied(next, c) {
        var i :| 0 <= i < |next| && next[i].x == c.x as real && next[i].y == c.y as real;
        if i < |placed| {
          assert placed[i] == next[i];
        }
      }
      if Occupied(placed, c) {
        var i :| 0 <= i < |placed| && placed[i].x == c.x as real && placed[i].y == c.y as real;
        assert next[i] == placed[i];
      }
      if c == d {
        assert next[|placed|] == Placed(d, midX);
      }
    }
    forall c ensures c in draws <==> c == d || c in draws[1..] {
      if c in draws {
        var i :| 0 <= i < |draws| && draws[i] == c;
        if i > 0 {
          assert draws[1..][i - 1] == c;
        }
      }
    }
  }

  /** When the draws contain at least want distinct free cells, seeding places all
      want particles. */
  lemma {:induction false} SeedFills(placed: seq<ParticleState>, want: nat, draws: seq<Cell>, midX: int)
    requires |FreshCells(placed, draws)| >= want
    ensures |Seed(placed, want, draws, midX)| == |placed| + want
    decreases |draws|
  {
    if want == 0 {
    } else if draws == [] {
    } else if Occupied(placed, draws[0]) {
      forall c ensures c in draws && !Occupied(placed, c) <==> c in draws[1..] && !Occupied(placed, c) {
        if c in draws && !Occupied(placed, c) {
          var i :| 0 <= i < |draws| && draws[i] == c;
          assert i > 0 && draws[1..][i - 1] == c;
        }
      }
      assert FreshCells(placed, draws[1..]) == FreshCells(placed, draws);
      SeedFills(placed, want, draws[1..], midX);
    } else {
      FreshAfterPlacing(placed, draws, midX);
      assert draws[0] in FreshCells(placed, draws);
      SeedFills(placed + [Placed(draws[0], midX)], want - 1, draws[1..], midX);
    }
  }

  /** Seeding an empty chamber with in-grid draws: at most want particles, each on an
      integer cell inside the grid, coloured by the midline, no two on one cell; and
      exactly want of them when the draws hold want distinct cells. */
  lemma SeededChamber(want: nat, draws: seq<Cell>, width: int, height: int)
    requires forall k :: 0 <= k < |draws| ==> InGrid(draws[k], width, height)
    ensures var r := Seed([], want, draws, width / 2);
      && |r| <= want
      && NoOverlap(r)
      && InBounds(r, width, height)
      && (forall k :: 0 <= k < |r| ==> OnCell(r[k]) && MidlineColoured(r[k], width / 2))
      && (|set c | c in draws| >= want ==> |r| == want)
  {
    var r := Seed([], want, draws, width / 2);
    SeedExtends([], want, draws, width / 2);
    SeedKeepsApart([], want, draws, width / 2);
    forall k | 0 <= k < |r|
      ensures 0.0 <= r[k].x < width as real && 0.0 <= r[k].y < height as real
      ensures OnCell(r[k]) && MidlineColoured(r[k], width / 2)
    {
      var d :| d in draws && r[k] == Placed(d, width / 2);
      assert InGrid(d, width, height);
    }
    assert FreshCells([], draws) == set c | c in draws;
    if |set c | c in draws| >= want {
      SeedFills([], want, draws, width / 2);
    }
  }
}
