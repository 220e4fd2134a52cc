/** The snake: an ordered body of pixel points (head first), a heading and a
    target length that the body grows towards by one segment per move. */
module SnakeModel {
  import opened Geometry

  /** Length of a fresh snake, and its initial target length. */
  const InitialLength := 3

  /** A fresh snake lies on row 0, head at `2 * unit`, tail at the origin. */
  function InitialBody(unit: int): (r: seq<Point>)
    ensures |r| == InitialLength && r[|r| - 1] == Point(0, 0)
    ensures forall i :: 1 <= i < |r| ==> r[i - 1] == Shift(r[i], Right, unit)
  {
    [Point(unit * 2, 0), Point(unit * 1, 0), Point(unit * 0, 0)]
  }

  /** One move: a new head one unit towards `d`, and the old tail dropped when
      the body would otherwise be longer than `target`. */
  function Advance(body: seq<Point>, d: Direction, unit: int, target: int): (r: seq<Point>)
    requires |body| >= 1
    ensures |body| <= |r| <= |body| + 1
  {
    var grown := [Shift(body[0], d, unit)] + body;
    if |grown| > target then grown[..|grown| - 1] else grown
  }

  /** The head meets one of the other segments. */
  predicate HitsSelf(body: seq<Point>)
    requires |body| >= 1
    ensures HitsSelf(body) <==> body[0] in body[1..]
  {
    exists i :: 1 <= i < |body| && body[i] == body[0]
  }

  /** The heading after asking for `requested`: a reversal is silently ignored. */
  function Turned(current: Direction, requested: Direction): (r: Direction)
    ensures r == current || r == requested
    ensures r != Opposite(current)
  {
    if requested == Opposite(current) then current else requested
  }

  /** Shape of a move: the new head is the old head shifted one unit, the rest
      is the old body with its tail dropped exactly when no growth is pending,
      and the length becomes min(target, old length + 1). */
  lemma AdvanceShape(body: seq<Point>, d: Direction, unit: int, target: int)
    requires 1 <= |body| <= target
    ensures var r := Advance(body, d, unit, target);
      && |r| == (if |body| + 1 <= target then |body| + 1 else target)
      && |r| <= target
      && r[0] == Shift(body[0], d, unit)
      && r[1..] == body[..|r| - 1]
  {
    var r := Advance(body, d, unit, target);
    var grown := [Shift(body[0], d, unit)] + body;
    assert grown[1..] == body;
    if |grown| > target {
      assert r == grown[..|body|];
      assert r[1..] == body[..|body| - 1];
    } else {
      assert r == grown;
    }
  }

  /** Growth is applied one segment per move however many `grow` calls are
      pending; with none pending the length stays the same. */
  lemma OneSegmentPerMove(body: seq<Point>, d: Direction, unit: int, target: int, pending: nat)
    requires 1 <= |body| <= target
    ensures |Advance(body, d, unit, target + pending)| == if pending == 0 && |body| == target then |body| else |body| + 1
  {
    AdvanceShape(body, d, unit, target + pending);
  }

  /** A fresh body collides with itself exactly when the unit is zero. */
  lemma InitialBodySelfCollision(unit: int)
    ensures HitsSelf(InitialBody(unit)) <==> unit == 0
  {
    var b := InitialBody(unit);
    if unit == 0 {
      assert b[1] == b[0];
    }
  }

  /** Moving straight back over the neck is a self collision: if the last move
      went towards `m` and the heading is now `Opposite(m)`, the new head lands
      on the old neck, which is still part of the body. */
  lemma ReversalHitsNeck(body: seq<Point>, m: Direction, unit: int, target: int)
    requires InitialLength <= |body| <= target
    requires body[0] == Shift(body[1], m, unit)
    ensures HitsSelf(Advance(body, Opposite(m), unit, target))
  {
    var r := Advance(body, Opposite(m), unit, target);
    AdvanceShape(body, Opposite(m), unit, target);
    ShiftOppositeUndoes(body[1], m, unit);
    assert r[1..][1] == body[1];
    assert r[2] == r[0];
  }

  /** The reversal guard rejects exactly the opposite heading. */
  lemma TurnedRejectsOnlyReversal(current: Direction, requested: Direction)
    ensures Turned(current, requested) != Opposite(current)
    ensures Turned(current, requested) == requested <==> requested != Opposite(current)
  {
    OppositeIsInvolution(current);
  }

  /** The guard compares with the stored heading, not with the last move: two
      quarter turns before one move end up reversed. */
  lemma TwoTurnsReverse(current: Direction, side: Direction)
    requires side != current && side != Opposite(current)
    ensures Turned(Turned(current, side), Opposite(current)) == Opposite(current)
  {
  }

  class Snake {
    var body: seq<Point>
    var direction: Direction
    const unitSize: int
    var bodyPartsCount: int

    /** The body is never shorter than a fresh one nor longer than its target. */
    ghost predicate Valid()
      reads this
    {
      InitialLength <= |body| <= bodyPartsCount
    }

    constructor (unitSize: int)
      ensures Valid()
      ensures this.unitSize == unitSize && direction == Right && bodyPartsCount == InitialLength
      ensures body == InitialBody(unitSize)
    {
      this.unitSize := unitSize;
      body := [];
      direction := Right;
      bodyPartsCount := InitialLength;
      new;
      var i := 0;
      while i < bodyPartsCount
        invariant 0 <= i <= InitialLength == bodyPartsCount
        invariant this.unitSize == unitSize && direction == Right
        invariant body == InitialBody(unitSize)[..i]
      {
        body := body + [Point(unitSize * (2 - i), 0)];
        i := i + 1;
      }
    }

    /** One move of the snake (the source's `update`). */
    method Update()
      requires Valid()
      modifies this
      ensures Valid()
      ensures body == Advance(old(body), direction, unitSize, bodyPartsCount)
      ensures direction == old(direction) && bodyPartsCount == old(bodyPartsCount)
    {
      var newHead := body[0];
      match direction {
        case Up => newHead := newHead.(y := newHead.y - unitSize);
        case Down => newHead := newHead.(y := newHead.y + unitSize);
        case Left => newHead := newHead.(x := newHead.x - unitSize);
        case Right => newHead := newHead.(x := newHead.x + unitSize);
      }
      body := [newHead] + body;
      if |body| > bodyPartsCount {
        body := body[..|body| - 1];
      }
    }

    method SetDirection(newDirection: Direction)
      modifies this
      ensures direction == Turned(old(direction), newDirection)
      ensures body == old(body) && bodyPartsCount == old(bodyPartsCount)
    {
      if || (direction == Up && newDirection == Down)
         || (direction == Down && newDirection == Up)
         || (direction == Left && newDirection == Right)
         || (direction == Right && newDirection == Left)
      {
        return;
      }
      direction := newDirection;
    }

    function CheckFoodCollision(foodX: int, foodY: int): (hit: bool)
      requires Valid()
      reads this
      ensures hit <==> body[0] == Point(foodX, foodY)
    {
      var head := body[0];
      head.x == foodX && head.y == foodY
    }

    function CheckWallCollision(panelWidth: int, panelHeight: int): (hit: bool)
      requires Valid()
      reads this
      ensures hit <==> !InPanel(body[0], panelWidth, panelHeight)
    {
      var head := body[0];
      head.x < 0 || head.x >= panelWidth || head.y < 0 || head.y >= panelHeight
    }

    method CheckSelfCollision() returns (hit: bool)
      requires Valid()
      ensures hit <==> HitsSelf(body)
    {
      var head := body[0];
      var i := 1;
      while i < |body|
        invariant 1 <= i <= |body|
        invariant forall j :: 1 <= j < i ==> body[j] != head
      {
        if head == body[i] {
          return true;
        }
        i := i + 1;
      }
      return false;
    }

    method Grow()
      requires Valid()
      modifies this
      ensures Valid()
      ensures bodyPartsCount == old(bodyPartsCount) + 1
      ensures body == old(body) && direction == old(direction)
    {
      bodyPartsCount := bodyPartsCount + 1;
    }

    /** The body handed to food placement, as a value. */
    function BodyParts(): (parts: seq<Point>)
      requires Valid()
      reads this
      ensures InitialLength <= |parts| <= bodyPartsCount
      ensures parts == body
    {
      body
    }
  }
}
