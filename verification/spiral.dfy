/**
 The square spiral on which the cash view places its piles of bills.

 A cursor starts at the grid origin facing (0, -1). Before every step it
 checks the turn rule at its current cell and, if the rule fires, rotates its
 direction a quarter turn (new dx = -old dy, new dy = old dx); then it steps
 once in its direction. Pile number i goes on the cell the cursor occupies
 after i steps.

 The walk visits the Chebyshev rings around the origin one after another:
 ring k (k >= 1) is entered at (k, 1 - k) and left from (k, -k), and holds
 8 * k cells. `SpiralIndex` is the closed-form inverse of the walk; the
 round-trip lemma `IndexOfCursor` gives injectivity of the walk, and
 `CursorAtIndex` shows it reaches every cell.
 */
module Spiral {

  datatype Point = Point(x: int, y: int)

  /** The walker: the cell it stands on and the direction of its last step. */
  datatype Cursor = Cursor(pos: Point, dx: int, dy: int)

  const Origin := Point(0, 0)

  /** Before the first pile: at the origin, facing (0, -1). */
  const Start := Cursor(Origin, 0, -1)

  function Abs(n: int): nat {
    if n < 0 then -n else n
  }

  /** A unit step along one of the two axes. */
  predicate IsUnitAxis(dx: int, dy: int) {
    || (dx == 0 && (dy == 1 || dy == -1))
    || (dy == 0 && (dx == 1 || dx == -1))
  }

  /** The two cells share an edge. */
  predicate AreNeighbours(p: Point, q: Point) {
    Abs(p.x - q.x) + Abs(p.y - q.y) == 1
  }

  /** The turn rule, checked at the cell the cursor stands on. */
  predicate TurnsAt(p: Point) {
    || p.x == p.y
    || (p.x < 0 && p.x == -p.y)
    || (p.x > 0 && p.x == 1 - p.y)
  }

  /** One iteration of the placement loop after a pile is placed. */
  function Advance(c: Cursor): (c': Cursor)
    ensures IsUnitAxis(c.dx, c.dy) ==> IsUnitAxis(c'.dx, c'.dy)
    ensures IsUnitAxis(c.dx, c.dy) ==> AreNeighbours(c.pos, c'.pos)
    ensures IsUnitAxis(c.dx, c.dy) ==> (TurnsAt(c.pos) <==> (c'.dx, c'.dy) != (c.dx, c.dy))
  {
    var turn := TurnsAt(c.pos);
    var dx := if turn then -c.dy else c.dx;
    var dy := if turn then c.dx else c.dy;
    Cursor(Point(c.pos.x + dx, c.pos.y + dy), dx, dy)
  }

  /** The cursor after `i` steps. */
  function CursorAt(i: nat): (c: Cursor)
    ensures IsUnitAxis(c.dx, c.dy)
    decreases i
  {
    if i == 0 then Start else Advance(CursorAt(i - 1))
  }

  /** Every step of the walk moves to a cell sharing an edge with the previous one. */
  lemma StepToNeighbour(i: nat)
    ensures AreNeighbours(CursorAt(i).pos, CursorAt(i + 1).pos)
  {
  }

  /** The Chebyshev ring a cell lies on. */
  function Ring(p: Point): nat {
    if Abs(p.x) < Abs(p.y) then Abs(p.y) else Abs(p.x)
  }

  /** Number of cells on rings 0 .. k - 1. */
  function Inner(k: nat): nat
    requires k > 0
  {
    (2 * k - 1) * (2 * k - 1)
  }

  /**
   The position of a cell along the spiral. Ring k is walked in four sides:
   up the right edge (x == k), left along the top (y == k), down the left edge
   (x == -k), right along the bottom (y == -k).
   */
  function SpiralIndex(p: Point): nat {
    if Ring(p) == 0 then 0 else Inner(Ring(p)) + RingOffset(p)
  }

  /** How far along its own ring a cell off the origin lies. */
  function RingOffset(p: Point): nat
    requires Ring(p) > 0
  {
    var k: int := Ring(p);
    if p.x == k && p.y > -k then p.y + k - 1
    else if p.y == k && p.x < k then (2 * k - 1) + (k - p.x)
    else if p.x == -k && p.y < k then (4 * k - 1) + (k - p.y)
    else (6 * k - 1) + (p.x + k)
  }

  /** The direction of the step that reaches a cell off the origin. */
  function Incoming(p: Point): (int, int) {
    var k: int := Ring(p);
    if p.x == k && p.y > -k then (if p.y == 1 - k then (1, 0) else (0, 1))
    else if p.y == k && p.x < k then (-1, 0)
    else if p.x == -k && p.y < k then (0, -1)
    else (1, 0)
  }

  /** A cursor that is "on track": off the origin and facing the way the spiral reached it. */
  predicate OnTrack(c: Cursor) {
    Ring(c.pos) > 0 && (c.dx, c.dy) == Incoming(c.pos)
  }

  lemma InnerStep(k: nat)
    requires k > 0
    ensures Inner(k + 1) == Inner(k) + 8 * k
  {
    calc {
      Inner(k + 1);
      (2 * k + 1) * (2 * k + 1);
      4 * k * k + 4 * k + 1;
      (2 * k - 1) * (2 * k - 1) + 8 * k;
    }
  }

  /** One step of an on-track cursor moves one place further along the spiral. */
  lemma AdvanceOnTrack(c: Cursor)
    requires OnTrack(c)
    ensures OnTrack(Advance(c))
    ensures SpiralIndex(Advance(c).pos) == SpiralIndex(c.pos) + 1
  {
    var p, k: int := c.pos, Ring(c.pos);
    var q := Advance(c).pos;
    if p.x == k && p.y > -k {
      if p.y == k {
        assert q == Point(k - 1, k) && Ring(q) == k;
      } else if p.y == 1 - k {
        assert q == Point(k, 2 - k) && Ring(q) == k;
      } else {
        assert q == Point(k, p.y + 1) && Ring(q) == k;
      }
    } else if p.y == k && p.x < k {
      if p.x == -k {
        assert q == Point(-k, k - 1) && Ring(q) == k;
      } else {
        assert q == Point(p.x - 1, k) && Ring(q) == k;
      }
    } else if p.x == -k && p.y < k {
      if p.y == -k {
        assert q == Point(1 - k, -k) && Ring(q) == k;
      } else {
        assert q == Point(-k, p.y - 1) && Ring(q) == k;
      }
    } else {
      assert p.y == -k;
      if p.x == k {
        assert q == Point(k + 1, -k) && Ring(q) == k + 1;
        InnerStep(k);
      } else {
        assert q == Point(p.x + 1, -k) && Ring(q) == k;
      }
    }
  }

  /** Round trip: the closed-form index of the cell reached after `i` steps is `i`. */
  lemma {:induction false} IndexOfCursor(i: nat)
    ensures SpiralIndex(CursorAt(i).pos) == i
    ensures i > 0 ==> OnTrack(CursorAt(i))
  {
    if i == 1 {
      assert CursorAt(1).pos == Point(1, 0);
    } else if i > 1 {
      IndexOfCursor(i - 1);
      AdvanceOnTrack(CursorAt(i - 1));
    }
  }

  /** No two steps of the walk land on the same cell. */
  lemma SpiralInjective(i: nat, j: nat)
    requires i != j
    ensures CursorAt(i).pos != CursorAt(j).pos
  {
    IndexOfCursor(i);
    IndexOfCursor(j);
  }

  /** Ring k takes the 8 * k places after the cells of the inner rings. */
  lemma IndexWithinRing(p: Point)
    ensures Ring(p) == 0 ==> SpiralIndex(p) == 0
    ensures Ring(p) > 0 ==> Inner(Ring(p)) <= SpiralIndex(p) < Inner(Ring(p)) + 8 * Ring(p)
  {
  }

  /** Within one ring the offset determines the cell. */
  lemma OffsetInjective(p: Point, q: Point)
    requires Ring(p) == Ring(q) > 0
    requires RingOffset(p) == RingOffset(q)
    ensures p == q
  {
  }

  lemma {:induction false} InnerBelow(k: nat, m: nat)
    requires 0 < k < m
    ensures Inner(k) + 8 * k <= Inner(m)
    decreases m - k
  {
    InnerStep(k);
    if k + 1 < m {
      InnerBelow(k + 1, m);
      InnerStep(k + 1);
    }
  }

  /** Every cell on a ring inside ring m comes before all of ring m. */
  lemma IndexBelowRing(p: Point, m: nat)
    requires 0 < m && Ring(p) < m
    ensures SpiralIndex(p) < Inner(m)
  {
    IndexWithinRing(p);
    if Ring(p) > 0 {
      InnerBelow(Ring(p), m);
    } else {
      assert Inner(m) == (2 * m - 1) * (2 * m - 1) >= 2 * m - 1;
    }
  }

  /** Distinct cells have distinct places on the spiral. */
  lemma IndexInjective(p: Point, q: Point)
    requires SpiralIndex(p) == SpiralIndex(q)
    ensures p == q
  {
    var k, m := Ring(p), Ring(q);
    if k < m {
      IndexBelowRing(p, m);
      IndexWithinRing(q);
      assert false;
    } else if m < k {
      IndexBelowRing(q, k);
      IndexWithinRing(p);
      assert false;
    } else if k > 0 {
      OffsetInjective(p, q);
    }
  }

  /** The walk reaches every cell of the grid: cell p is reached after `SpiralIndex(p)` steps. */
  lemma CursorAtIndex(p: Point)
    ensures CursorAt(SpiralIndex(p)).pos == p
  {
    IndexOfCursor(SpiralIndex(p));
    IndexInjective(CursorAt(SpiralIndex(p)).pos, p);
  }
}
