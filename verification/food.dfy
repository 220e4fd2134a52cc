/** The food: one grid cell, drawn at random and redrawn, up to a bounded
    number of times, until it misses the snake's body. */
module FoodModel {
  import opened Geometry

  /** Number of checked draws before the unchecked fallback draw. */
  const MaxAttempts := 100

  /** The value the `i`-th call `nextInt(bound)` of a random generator hands out.
      The stream `oracle` is arbitrary, so every sequence of in-range draws is
      covered; how `java.util.Random` computes its values is not modelled. */
  function Draw(oracle: nat -> nat, i: nat, bound: int): (k: int)
    requires bound > 0
    ensures 0 <= k < bound
  {
    oracle(i) % bound
  }

  /** A `java.util.Random`: a fixed stream of values and the number drawn so far. */
  class Random {
    const oracle: nat -> nat
    var drawn: nat

    constructor (oracle: nat -> nat)
      ensures this.oracle == oracle && drawn == 0
    {
      this.oracle := oracle;
      drawn := 0;
    }

    method NextInt(bound: int) returns (k: int)
      requires bound > 0
      modifies this
      ensures 0 <= k < bound
      ensures k == Draw(oracle, old(drawn), bound) && drawn == old(drawn) + 1
    {
      k := oracle(drawn) % bound;
      drawn := drawn + 1;
    }
  }

  /** The panel holds at least one whole cell in each direction, which
      `nextInt(panelWidth / unitSize)` needs. */
  predicate Panel(unit: int, width: int, height: int) {
    unit > 0 && width / unit > 0 && height / unit > 0
  }

  /** The cell drawn by draws `i` (column) and `i + 1` (row). */
  function RandomCell(oracle: nat -> nat, i: nat, unit: int, width: int, height: int): (r: Point)
    requires Panel(unit, width, height)
    ensures InPanel(r, width, height)
  {
    var col, row := Draw(oracle, i, width / unit), Draw(oracle, i + 1, height / unit);
    CellEdgeOnGrid(col, unit, width);
    OnGridAxisBelowExtent(col * unit, unit, width);
    CellEdgeOnGrid(row, unit, height);
    OnGridAxisBelowExtent(row * unit, unit, height);
    Point(col * unit, row * unit)
  }

  /** Every drawn cell is a grid cell of the panel. */
  lemma RandomCellOnGrid(oracle: nat -> nat, i: nat, unit: int, width: int, height: int)
    requires Panel(unit, width, height)
    ensures OnGrid(RandomCell(oracle, i, unit, width, height), unit, width, height)
  {
    CellEdgeOnGrid(Draw(oracle, i, width / unit), unit, width);
    CellEdgeOnGrid(Draw(oracle, i + 1, height / unit), unit, height);
  }

  /** The `k`-th candidate of a placement that starts after `drawn` draws. */
  function Candidate(oracle: nat -> nat, drawn: nat, k: nat, unit: int, width: int, height: int): Point
    requires Panel(unit, width, height)
  {
    RandomCell(oracle, drawn + 2 * k, unit, width, height)
  }

  /** The candidates after the first are those of a placement starting two draws later. */
  lemma CandidateNext(oracle: nat -> nat, drawn: nat, k: nat, unit: int, width: int, height: int)
    requires Panel(unit, width, height) && k >= 1
    ensures Candidate(oracle, drawn, k, unit, width, height) == Candidate(oracle, drawn + 2, k - 1, unit, width, height)
  {
    assert drawn + 2 * k == (drawn + 2) + 2 * (k - 1);
  }

  /** Outcome of a placement: the position, whether it was checked free, the
      number of checked attempts made, and the draws consumed in total. */
  datatype Placement = Placement(pos: Point, valid: bool, attempts: nat, drawn: nat)

  /** The placement loop from its `attempts`-th attempt on, `drawn` values
      already taken from the stream. */
  function PlaceFrom(body: seq<Point>, oracle: nat -> nat, drawn: nat, attempts: nat,
                     unit: int, width: int, height: int): (r: Placement)
    requires Panel(unit, width, height) && attempts <= MaxAttempts
    ensures attempts <= r.attempts <= MaxAttempts
    decreases MaxAttempts - attempts
  {
    if attempts == MaxAttempts then
      Placement(RandomCell(oracle, drawn, unit, width, height), false, attempts, drawn + 2)
    else
      var p := RandomCell(oracle, drawn, unit, width, height);
      if p !in body then Placement(p, true, attempts + 1, drawn + 2)
      else PlaceFrom(body, oracle, drawn + 2, attempts + 1, unit, width, height)
  }

  /** One checked attempt of the placement loop, drawing cell `p`. */
  lemma PlaceFromStep(body: seq<Point>, oracle: nat -> nat, drawn: nat, attempts: nat, p: Point,
                      unit: int, width: int, height: int)
    requires Panel(unit, width, height) && attempts < MaxAttempts
    requires p == RandomCell(oracle, drawn, unit, width, height)
    ensures p !in body ==> PlaceFrom(body, oracle, drawn, attempts, unit, width, height) == Placement(p, true, attempts + 1, drawn + 2)
    ensures p in body ==>
      PlaceFrom(body, oracle, drawn, attempts, unit, width, height) == PlaceFrom(body, oracle, drawn + 2, attempts + 1, unit, width, height)
  {
  }

  /** Wherever the food lands, it lands on a grid cell inside the panel. */
  lemma {:induction false} PlaceFromOnGrid(body: seq<Point>, oracle: nat -> nat, drawn: nat, attempts: nat,
                                           unit: int, width: int, height: int)
    requires Panel(unit, width, height) && attempts <= MaxAttempts
    ensures var r := PlaceFrom(body, oracle, drawn, attempts, unit, width, height);
      OnGrid(r.pos, unit, width, height) && InPanel(r.pos, width, height)
    decreases MaxAttempts - attempts
  {
    var r := PlaceFrom(body, oracle, drawn, attempts, unit, width, height);
    if attempts < MaxAttempts && RandomCell(oracle, drawn, unit, width, height) in body {
      PlaceFromOnGrid(body, oracle, drawn + 2, attempts + 1, unit, width, height);
    } else {
      RandomCellOnGrid(oracle, drawn, unit, width, height);
    }
    OnGridInPanel(r.pos, unit, width, height);
  }

  /** A checked placement is a free candidate: the chosen cell misses the
      body, it is the candidate of the last attempt, and two draws were taken
      per attempt. */
  lemma {:induction false} PlaceFromValidIsFree(body: seq<Point>, oracle: nat -> nat, drawn: nat, attempts: nat,
                                                unit: int, width: int, height: int)
    requires Panel(unit, width, height) && attempts <= MaxAttempts
    requires PlaceFrom(body, oracle, drawn, attempts, unit, width, height).valid
    ensures var r := PlaceFrom(body, oracle, drawn, attempts, unit, width, height);
      && attempts < r.attempts <= MaxAttempts
      && r.pos !in body
      && r.pos == Candidate(oracle, drawn, r.attempts - 1 - attempts, unit, width, height)
      && r.drawn == drawn + 2 * (r.attempts - attempts)
    decreases MaxAttempts - attempts
  {
    var p := RandomCell(oracle, drawn, unit, width, height);
    var r := PlaceFrom(body, oracle, drawn, attempts, unit, width, height);
    PlaceFromStep(body, oracle, drawn, attempts, p, unit, width, height);
    if p in body {
      PlaceFromValidIsFree(body, oracle, drawn + 2, attempts + 1, unit, width, height);
      CandidateNext(oracle, drawn, r.attempts - 1 - attempts, unit, width, height);
    } else {
      assert p == Candidate(oracle, drawn, 0, unit, width, height);
    }
  }

  /** A checked placement is the FIRST free candidate: every candidate before
      the chosen one lies on the body. */
  lemma {:induction false} PlaceFromValidIsFirst(body: seq<Point>, oracle: nat -> nat, drawn: nat, attempts: nat,
                                                 unit: int, width: int, height: int)
    requires Panel(unit, width, height) && attempts <= MaxAttempts
    requires PlaceFrom(body, oracle, drawn, attempts, unit, width, height).valid
    ensures var r := PlaceFrom(body, oracle, drawn, attempts, unit, width, height);
      forall k :: 0 <= k < r.attempts - 1 - attempts ==> Candidate(oracle, drawn, k, unit, width, height) in body
    decreases MaxAttempts - attempts
  {
    var p := RandomCell(oracle, drawn, unit, width, height);
    var r := PlaceFrom(body, oracle, drawn, attempts, unit, width, height);
    PlaceFromStep(body, oracle, drawn, attempts, p, unit, width, height);
    if p in body {
      PlaceFromValidIsFirst(body, oracle, drawn + 2, attempts + 1, unit, width, height);
      forall k | 0 <= k < r.attempts - 1 - attempts
        ensures Candidate(oracle, drawn, k, unit, width, height) in body
      {
        if k > 0 {
          CandidateNext(oracle, drawn, k, unit, width, height);
        } else {
          assert p == Candidate(oracle, drawn, 0, unit, width, height);
        }
      }
    }
  }

  /** When no checked candidate misses the body, the food comes from one more,
      unchecked draw: the candidate after the last checked one. */
  lemma {:induction false} PlaceFromFallback(body: seq<Point>, oracle: nat -> nat, drawn: nat, attempts: nat,
                                             unit: int, width: int, height: int)
    requires Panel(unit, width, height) && attempts <= MaxAttempts
    requires !PlaceFrom(body, oracle, drawn, attempts, unit, width, height).valid
    ensures var r := PlaceFrom(body, oracle, drawn, attempts, unit, width, height);
      && r.attempts == MaxAttempts
      && (forall k :: 0 <= k < MaxAttempts - attempts ==> Candidate(oracle, drawn, k, unit, width, height) in body)
      && r.pos == Candidate(oracle, drawn, MaxAttempts - attempts, unit, width, height)
      && r.drawn == drawn + 2 * (MaxAttempts - attempts + 1)
    decreases MaxAttempts - attempts
  {
    if attempts < MaxAttempts {
      PlaceFromFallback(body, oracle, drawn + 2, attempts + 1, unit, width, height);
      forall k | 0 < k <= MaxAttempts - attempts
        ensures Candidate(oracle, drawn, k, unit, width, height) == Candidate(oracle, drawn + 2, k - 1, unit, width, height)
      {
        CandidateNext(oracle, drawn, k, unit, width, height);
      }
    }
  }

  /** The placement is checked exactly when some candidate within the
      remaining attempts misses the body. */
  lemma PlaceFromValidIff(body: seq<Point>, oracle: nat -> nat, drawn: nat, attempts: nat,
                          unit: int, width: int, height: int)
    requires Panel(unit, width, height) && attempts <= MaxAttempts
    ensures PlaceFrom(body, oracle, drawn, attempts, unit, width, height).valid <==>
      exists k :: 0 <= k < MaxAttempts - attempts && Candidate(oracle, drawn, k, unit, width, height) !in body
  {
    var r := PlaceFrom(body, oracle, drawn, attempts, unit, width, height);
    if r.valid {
      PlaceFromValidIsFree(body, oracle, drawn, attempts, unit, width, height);
      assert Candidate(oracle, drawn, r.attempts - 1 - attempts, unit, width, height) !in body;
    } else {
      PlaceFromFallback(body, oracle, drawn, attempts, unit, width, height);
    }
  }

  /** A random stream that only ever yields 0. */
  function Zeros(i: nat): nat {
    0
  }

  /** A whole placement, from the first attempt: a checked cell misses the
      body, and an unchecked one comes only after all attempts were used. */
  function Place(body: seq<Point>, oracle: nat -> nat, drawn: nat, unit: int, width: int, height: int): (r: Placement)
    requires Panel(unit, width, height)
    ensures r.valid ==> r.pos !in body
    ensures !r.valid ==> r.attempts == MaxAttempts
  {
    var r := PlaceFrom(body, oracle, drawn, 0, unit, width, height);
    if r.valid then
      PlaceFromValidIsFree(body, oracle, drawn, 0, unit, width, height);
      r
    else
      PlaceFromFallback(body, oracle, drawn, 0, unit, width, height);
      r
  }

  /** The fallback may put the food on the body: with a body on the origin and
      a stream of zeros every draw is the origin. */
  lemma FallbackMayOverlap(unit: int, width: int, height: int)
    requires Panel(unit, width, height)
    ensures var r := Place([Point(0, 0)], Zeros, 0, unit, width, height);
      !r.valid && r.pos in [Point(0, 0)]
  {
    var body := [Point(0, 0)];
    forall k: nat
      ensures Candidate(Zeros, 0, k, unit, width, height) == Point(0, 0)
    {
      ZerosCandidate(k, unit, width, height);
    }
    PlaceFromValidIff(body, Zeros, 0, 0, unit, width, height);
    PlaceFromFallback(body, Zeros, 0, 0, unit, width, height);
  }

  /** Every candidate drawn from a stream of zeros is the origin. */
  lemma ZerosCandidate(k: nat, unit: int, width: int, height: int)
    requires Panel(unit, width, height)
    ensures Candidate(Zeros, 0, k, unit, width, height) == Point(0, 0)
  {
    assert Draw(Zeros, 2 * k, width / unit) == 0;
    assert Draw(Zeros, 2 * k + 1, height / unit) == 0;
  }

  class Food {
    var x: int
    var y: int
    const unitSize: int
    const panelWidth: int
    const panelHeight: int
    const random: Random

    /** The food always sits on a grid cell of the panel. */
    ghost predicate Valid()
      reads this
    {
      Panel(unitSize, panelWidth, panelHeight) && OnGrid(Point(x, y), unitSize, panelWidth, panelHeight)
    }

    /** Places the food at a random cell, without looking at any snake. */
    constructor (unitSize: int, panelWidth: int, panelHeight: int, oracle: nat -> nat)
      requires Panel(unitSize, panelWidth, panelHeight)
      ensures Valid()
      ensures this.unitSize == unitSize && this.panelWidth == panelWidth && this.panelHeight == panelHeight
      ensures fresh(random) && random.oracle == oracle && random.drawn == 2
      ensures Point(x, y) == RandomCell(oracle, 0, unitSize, panelWidth, panelHeight)
    {
      this.unitSize := unitSize;
      this.panelWidth := panelWidth;
      this.panelHeight := panelHeight;
      random := new Random(oracle);
      new;
      GenerateRandomPosition();
    }

    method GenerateRandomPosition()
      requires Panel(unitSize, panelWidth, panelHeight)
      modifies this, random
      ensures Valid()
      ensures Point(x, y) == RandomCell(random.oracle, old(random.drawn), unitSize, panelWidth, panelHeight)
      ensures random.drawn == old(random.drawn) + 2
    {
      ghost var first := random.drawn;
      var col := random.NextInt(panelWidth / unitSize);
      x := col * unitSize;
      var row := random.NextInt(panelHeight / unitSize);
      y := row * unitSize;
      assert Point(x, y) == RandomCell(random.oracle, first, unitSize, panelWidth, panelHeight);
      RandomCellOnGrid(random.oracle, first, unitSize, panelWidth, panelHeight);
    }

    /** Redraws the food, trying up to `MaxAttempts` cells off the given body
        before settling for one unchecked draw. The body is only read. */
    method GenerateNewFood(snakeBodyParts: seq<Point>)
      requires Valid()
      modifies this, random
      ensures Valid()
      ensures var r := Place(snakeBodyParts, random.oracle, old(random.drawn), unitSize, panelWidth, panelHeight);
        Point(x, y) == r.pos && random.drawn == r.drawn
    {
      ghost var goal := Place(snakeBodyParts, random.oracle, random.drawn, unitSize, panelWidth, panelHeight);
      var validPosition := false;
      var attempts := 0;
      while !validPosition && attempts < MaxAttempts
        invariant 0 <= attempts <= MaxAttempts
        invariant Valid()
        invariant validPosition ==> goal == Placement(Point(x, y), true, attempts, random.drawn)
        invariant !validPosition ==>
          goal == PlaceFrom(snakeBodyParts, random.oracle, random.drawn, attempts, unitSize, panelWidth, panelHeight)
      {
        ghost var before := random.drawn;
        GenerateRandomPosition();
        var hit := OnBody(snakeBodyParts, x, y);
        validPosition := !hit;
        ghost var cell := Point(x, y);
        PlaceFromStep(snakeBodyParts, random.oracle, before, attempts, cell, unitSize, panelWidth, panelHeight);
        attempts := attempts + 1;
      }
      if !validPosition {
        assert attempts == MaxAttempts;
        GenerateRandomPosition();
      }
    }

    static method OnBody(snakeBodyParts: seq<Point>, x: int, y: int) returns (hit: bool)
      ensures hit <==> Point(x, y) in snakeBodyParts
    {
      var i := 0;
      while i < |snakeBodyParts|
        invariant 0 <= i <= |snakeBodyParts|
        invariant Point(x, y) !in snakeBodyParts[..i]
      {
        var part := snakeBodyParts[i];
        if part.x == x && part.y == y {
          return true;
        }
        assert snakeBodyParts[..i + 1] == snakeBodyParts[..i] + [part];
        i := i + 1;
      }
      assert snakeBodyParts[..i] == snakeBodyParts;
      return false;
    }

    /** The food's position (the source's `getX` and `getY`). */
    function Position(): (p: Point)
      requires Valid()
      reads this
      ensures OnGrid(p, unitSize, panelWidth, panelHeight) && InPanel(p, panelWidth, panelHeight)
    {
      OnGridInPanel(Point(x, y), unitSize, panelWidth, panelHeight);
      Point(x, y)
    }
  }
}
