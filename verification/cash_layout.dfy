/**
 The cash view: how a savings total becomes piles of 100-krona bills, a stack
 of 1-krona coins and a floating label.

 Lengths are exact integers in micrometres (one scene length unit is
 1_000_000 of them), so every Float constant of the app is an exact
 integer here: one bill is 125 thick (0.0125 per 10_000 kronor), a
 pile is at most 500_000 high, i.e. 4000 bills.
 */
module CashLayout {
  import opened Spiral

  const BILL_THICKNESS := 125
  const MAX_PILE_HEIGHT := 500_000
  const BILL_WIDTH := 133_000
  const BILL_HEIGHT := 66_000
  const PILE_PADDING := 40_000
  const TEXT_PADDING := 100_000
  /** Height of one 1-krona coin. */
  const COIN_THICKNESS := 1_790

  /** A total split into the part shown as bills and the kronor shown as coins. */
  datatype Split = Split(notes: nat, kronor: nat)

  /** One pile of bills: its grid cell and its height. */
  datatype Pile = Pile(cell: Point, height: nat)

  /** The coin stack: its depth coordinate in the scene and its height. */
  datatype Coin = Coin(z: int, height: nat)

  datatype Layout = Layout(piles: seq<Pile>, coin: Coin, labelHeight: nat)

  function SplitTotal(total: nat): (s: Split)
    ensures s.kronor < 100
    ensures s.notes % 100 == 0
    ensures s.notes + s.kronor == total
  {
    var kronor := total - (total / 100) * 100;
    Split(total - kronor, kronor)
  }

  /** The split is the only one with a whole number of hundreds and fewer than 100 kronor. */
  lemma SplitUnique(total: nat, notes: nat, kronor: nat)
    requires notes % 100 == 0 && kronor < 100 && notes + kronor == total
    ensures SplitTotal(total) == Split(notes, kronor)
  {
    var s := SplitTotal(total);
    assert (notes - s.notes) % 100 == 0;
  }

  /** Number of 100-krona bills. */
  function Bills(total: nat): nat {
    SplitTotal(total).notes / 100
  }

  /** Height of all bills stacked in one column. */
  function TotalHeight(total: nat): (h: nat)
    ensures h == 0 <==> total < 100
    ensures h % BILL_THICKNESS == 0
  {
    Bills(total) * BILL_THICKNESS
  }

  /** The number of piles, the ceiling of the total height over the pile cap. */
  function NumPiles(total: nat): (n: nat)
    ensures n * MAX_PILE_HEIGHT >= TotalHeight(total)
    ensures n > 0 ==> (n - 1) * MAX_PILE_HEIGHT < TotalHeight(total)
    ensures n == 0 <==> total < 100
  {
    (TotalHeight(total) + MAX_PILE_HEIGHT - 1) / MAX_PILE_HEIGHT
  }

  /** In bills, a pile holds at most 4000 and the piles are as few as possible. */
  lemma NumPilesCountsBills(total: nat)
    ensures NumPiles(total) * 4000 >= Bills(total)
    ensures NumPiles(total) > 0 ==> (NumPiles(total) - 1) * 4000 < Bills(total)
  {
    var n := NumPiles(total);
    assert n * MAX_PILE_HEIGHT == n * 4000 * BILL_THICKNESS;
    if n > 0 {
      assert (n - 1) * MAX_PILE_HEIGHT == (n - 1) * 4000 * BILL_THICKNESS;
    }
  }

  /** All piles but the last are full; the last takes what remains. */
  function PileHeight(total: nat, i: nat): (h: nat)
    requires i < NumPiles(total)
    ensures 0 < h <= MAX_PILE_HEIGHT
  {
    var n := NumPiles(total);
    if i == n - 1 then TotalHeight(total) - MAX_PILE_HEIGHT * (n - 1) else MAX_PILE_HEIGHT
  }

  /** The piles in placement order: pile i stands on the spiral's i-th cell. */
  function Piles(total: nat): (ps: seq<Pile>)
    ensures |ps| == NumPiles(total)
  {
    FirstPiles(total, NumPiles(total))
  }

  /** The first `i` piles in placement order. */
  function FirstPiles(total: nat, i: nat): (ps: seq<Pile>)
    requires i <= NumPiles(total)
    ensures |ps| == i
  {
    if i == 0 then [] else FirstPiles(total, i - 1) + [Pile(CursorAt(i - 1).pos, PileHeight(total, i - 1))]
  }

  lemma {:induction false} FirstPilesAt(total: nat, i: nat, k: nat)
    requires k < i <= NumPiles(total)
    ensures FirstPiles(total, i)[k] == Pile(CursorAt(k).pos, PileHeight(total, k))
  {
    if k < i - 1 {
      FirstPilesAt(total, i - 1, k);
    }
  }

  lemma PileAt(total: nat, k: nat)
    requires k < NumPiles(total)
    ensures Piles(total)[k] == Pile(CursorAt(k).pos, PileHeight(total, k))
  {
    FirstPilesAt(total, NumPiles(total), k);
  }

  /** Scene coordinates of a grid cell: a bill plus padding per cell. */
  function SceneX(p: Point): int {
    p.x * BILL_WIDTH + p.x * PILE_PADDING
  }

  function SceneZ(p: Point): int {
    p.y * BILL_HEIGHT + p.y * PILE_PADDING
  }

  function Max(a: int, b: int): int {
    if a < b then b else a
  }

  /** The running maximum of the piles' depth coordinates, starting from 0. */
  function MaxSceneZ(ps: seq<Pile>): (m: int)
    ensures m >= 0
    ensures forall i :: 0 <= i < |ps| ==> SceneZ(ps[i].cell) <= m
    ensures m == 0 || exists i :: 0 <= i < |ps| && m == SceneZ(ps[i].cell)
  {
    if |ps| == 0 then 0
    else
      var prefix := ps[..|ps| - 1];
      assert forall i :: 0 <= i < |prefix| ==> prefix[i] == ps[i];
      Max(MaxSceneZ(prefix), SceneZ(ps[|ps| - 1].cell))
  }

  /** The coin stack stands one bill depth beyond the furthest pile. */
  function CoinOf(total: nat): (c: Coin)
    ensures c.z >= BILL_HEIGHT
    ensures c.height < 100 * COIN_THICKNESS
  {
    Coin(MaxSceneZ(Piles(total)) + BILL_HEIGHT, SplitTotal(total).kronor * COIN_THICKNESS)
  }

  /** The label floats above one pile, or above a full pile when there is not exactly one. */
  function LabelHeight(total: nat): (h: nat)
    ensures TEXT_PADDING < h <= MAX_PILE_HEIGHT + TEXT_PADDING
  {
    (if NumPiles(total) == 1 then TotalHeight(total) else MAX_PILE_HEIGHT) + TEXT_PADDING
  }

  function CashLayoutOf(total: nat): Layout {
    Layout(Piles(total), CoinOf(total), LabelHeight(total))
  }

  function SumHeights(ps: seq<Pile>): nat {
    if |ps| == 0 then 0 else SumHeights(ps[..|ps| - 1]) + ps[|ps| - 1].height
  }

  // ---------------------------------------------------------------------
  // Properties of the layout
  // ---------------------------------------------------------------------

  /** Piles exist exactly when there is at least one whole hundred. */
  lemma NoPilesBelowOneHundred(total: nat)
    ensures |CashLayoutOf(total).piles| == 0 <==> total < 100
  {
  }

  /** Every pile but the last is full; the last is non-empty and at most full. */
  lemma PileHeightsCapped(total: nat)
    ensures var ps := Piles(total);
      && (forall i :: 0 <= i < |ps| - 1 ==> ps[i].height == MAX_PILE_HEIGHT)
      && (|ps| > 0 ==> 0 < ps[|ps| - 1].height <= MAX_PILE_HEIGHT)
      && (|ps| > 0 ==> ps[|ps| - 1].height == TotalHeight(total) - MAX_PILE_HEIGHT * (|ps| - 1))
  {
    var ps := Piles(total);
    forall i | 0 <= i < |ps|
      ensures ps[i].height == PileHeight(total, i)
    {
      PileAt(total, i);
    }
  }

  lemma {:induction false} SumOfFullPiles(ps: seq<Pile>)
    requires forall i :: 0 <= i < |ps| ==> ps[i].height == MAX_PILE_HEIGHT
    ensures SumHeights(ps) == |ps| * MAX_PILE_HEIGHT
  {
    if |ps| > 0 {
      SumOfFullPiles(ps[..|ps| - 1]);
    }
  }

  /** The piles together are exactly as high as all the bills stacked. */
  lemma PileHeightsSum(total: nat)
    ensures SumHeights(Piles(total)) == TotalHeight(total)
  {
    var ps := Piles(total);
    PileHeightsCapped(total);
    if |ps| > 0 {
      var full := ps[..|ps| - 1];
      assert forall i :: 0 <= i < |full| ==> full[i] == ps[i];
      SumOfFullPiles(full);
    }
  }

  /** No two piles share a grid cell. */
  lemma PilesOnDistinctCells(total: nat)
    ensures var ps := Piles(total);
      forall i, j :: 0 <= i < j < |ps| ==> ps[i].cell != ps[j].cell
  {
    var ps := Piles(total);
    forall i, j | 0 <= i < j < |ps|
      ensures ps[i].cell != ps[j].cell
    {
      PileAt(total, i);
      PileAt(total, j);
      SpiralInjective(i, j);
    }
  }

  /** Consecutive piles stand on neighbouring cells. */
  lemma PilesAdjacent(total: nat)
    ensures var ps := Piles(total);
      forall i :: 0 <= i < |ps| - 1 ==> AreNeighbours(ps[i].cell, ps[i + 1].cell)
  {
    var ps := Piles(total);
    forall i | 0 <= i < |ps| - 1
      ensures AreNeighbours(ps[i].cell, ps[i + 1].cell)
    {
      PileAt(total, i);
      PileAt(total, i + 1);
      StepToNeighbour(i);
    }
  }

  /** Piles on different cells do not overlap in the scene: the cell pitch is a bill plus padding. */
  lemma FootprintsDisjoint(p: Point, q: Point)
    requires p != q
    ensures || Abs(SceneX(p) - SceneX(q)) >= BILL_WIDTH + PILE_PADDING
            || Abs(SceneZ(p) - SceneZ(q)) >= BILL_HEIGHT + PILE_PADDING
  {
    if p.x != q.x {
      var d := p.x - q.x;
      assert SceneX(p) - SceneX(q) == d * (BILL_WIDTH + PILE_PADDING);
    } else {
      var d := p.y - q.y;
      assert SceneZ(p) - SceneZ(q) == d * (BILL_HEIGHT + PILE_PADDING);
    }
  }

  /** The coin stack is beyond every pile, at depth 0 or more, and as high as the kronor. */
  lemma CoinBeyondPiles(total: nat)
    ensures var l := CashLayoutOf(total);
      && l.coin.z >= BILL_HEIGHT
      && (forall i :: 0 <= i < |l.piles| ==> l.coin.z >= SceneZ(l.piles[i].cell) + BILL_HEIGHT)
      && (l.coin.z == BILL_HEIGHT || exists i :: 0 <= i < |l.piles| && l.coin.z == SceneZ(l.piles[i].cell) + BILL_HEIGHT)
      && l.coin.height == (total % 100) * COIN_THICKNESS
      && l.coin.height < 100 * COIN_THICKNESS
  {
  }

  /** The label is above the single pile when there is one, otherwise above a full pile, even with no piles. */
  lemma LabelAbovePiles(total: nat)
    ensures var l := CashLayoutOf(total);
      && (|l.piles| == 1 ==> l.labelHeight == l.piles[0].height + TEXT_PADDING)
      && (|l.piles| != 1 ==> l.labelHeight == MAX_PILE_HEIGHT + TEXT_PADDING)
      && (forall i :: 0 <= i < |l.piles| ==> l.piles[i].height + TEXT_PADDING <= l.labelHeight)
  {
    PileHeightsCapped(total);
  }

  /** 12345 kronor: one pile of 123 bills and 45 coins. */
  lemma ExampleTwelveThousand()
    ensures var l := CashLayoutOf(12345);
      && l.piles == [Pile(Origin, 15_375)]
      && l.coin == Coin(BILL_HEIGHT, 80_550)
      && l.labelHeight == 115_375
  {
    var ps := Piles(12345);
    assert NumPiles(12345) == 1;
    assert ps[0] == Pile(Origin, 15_375);
  }

  /** Below one hundred there are no piles, the coins stand at one bill depth, and the label is at a full pile plus padding. */
  lemma BelowOneHundred(total: nat)
    requires total < 100
    ensures CashLayoutOf(total) == Layout([], Coin(BILL_HEIGHT, total * COIN_THICKNESS), MAX_PILE_HEIGHT + TEXT_PADDING)
  {
    assert NumPiles(total) == 0;
    assert Piles(total) == [];
    assert SplitTotal(total).kronor == total;
  }

  /** Nothing saved: no piles, no coins, and the label still at a full pile's height. */
  lemma ExampleNothingSaved()
    ensures CashLayoutOf(0) == Layout([], Coin(BILL_HEIGHT, 0), MAX_PILE_HEIGHT + TEXT_PADDING)
  {
    BelowOneHundred(0);
  }

  // ---------------------------------------------------------------------
  // The placement loop as written
  // ---------------------------------------------------------------------

  lemma MaxSceneZAppend(ps: seq<Pile>, p: Pile)
    ensures MaxSceneZ(ps + [p]) == Max(MaxSceneZ(ps), SceneZ(p.cell))
  {
    assert (ps + [p])[..|ps|] == ps;
  }

  /** The state of the placement loop after `i` passes. */
  predicate PlacedSoFar(total: nat, i: nat, c: Cursor, piles: seq<Pile>, maxZ: int) {
    && i <= NumPiles(total)
    && c == CursorAt(i)
    && piles == FirstPiles(total, i)
    && maxZ == MaxSceneZ(piles)
  }

  /** One pass of the placement loop extends the layout by the next pile and moves the cursor on. */
  lemma PlacementStep(total: nat, i: nat, c: Cursor, piles: seq<Pile>, maxZ: int)
    requires PlacedSoFar(total, i, c, piles, maxZ) && i < NumPiles(total)
    ensures PlacedSoFar(total, i + 1, Advance(c), piles + [Pile(c.pos, PileHeight(total, i))], Max(maxZ, SceneZ(c.pos)))
  {
    MaxSceneZAppend(piles, Pile(c.pos, PileHeight(total, i)));
  }

  /**
   The placement loop: the cursor walks the spiral while each pass places one
   pile and keeps the running maximum of the piles' depth coordinates.
   */
  method PlacePiles(total: nat) returns (piles: seq<Pile>, maxCoordinateZ: int)
    ensures piles == Piles(total)
    ensures maxCoordinateZ == MaxSceneZ(piles)
  {
    var numPiles := NumPiles(total);
    var cursor := Start;
    maxCoordinateZ := 0;
    piles := [];
    var i := 0;
    while i < numPiles
      invariant PlacedSoFar(total, i, cursor, piles, maxCoordinateZ)
    {
      var pileHeight := PileHeight(total, i);
      PlacementStep(total, i, cursor, piles, maxCoordinateZ);
      maxCoordinateZ := Max(maxCoordinateZ, SceneZ(cursor.pos));
      piles := piles + [Pile(cursor.pos, pileHeight)];
      cursor := Advance(cursor);
      i := i + 1;
    }
  }
}
