/**
 The composer: it keeps the current anchor, rebuilds the subtree under it
 whenever the savings total or the view changes, and hands it to the scene.

 A session holds the node arena, what each node draws (`looks`), the
 top-level nodes of the scene (`roots`), the current anchor, and the next
 unused node identity. A plane tap clears the old anchor and makes a new,
 empty one current. A rebuild fires only once an anchor exists; it clears
 the anchor and attaches the new nodes in order. The scene shows the anchor
 by adding it to its top-level nodes unless it is there already.

 The anchor's node parent is always empty: it hangs, if anywhere, directly
 under the scene, so `clear` leaves it among the scene's top-level nodes.
 Old anchors therefore stay in the scene, empty, and as long as every cash
 rebuild runs against the current anchor only that anchor carries any
 content (asset rebuilds always do); `StaleRebuildBreaksValid` shows what a
 cash rebuild of an old anchor does.
 */
module Composer {
  import opened Wrappers
  import opened SceneTree
  import opened CashLayout
  import opened Reveal

  datatype AssetKind = Car | Home

  /** Scale in thousandths, tilt about the x axis in degrees, and depth offset in micrometres. */
  datatype Placement = Placement(scale: nat, tilt: int, z: int)

  /** What a node draws. */
  datatype Look =
    | PileBase(pile: Pile)
    | PileFace(pile: Pile)
    | CoinBase(coin: Coin)
    | Label(height: int)
    | AssetModel(kind: AssetKind, placement: Placement, materials: seq<Material>)

  datatype Session = Session(
    arena: Arena,
    looks: map<NodeId, Look>,
    roots: seq<NodeId>,
    anchor: Option<NodeId>,
    next: NodeId)

  const Initial := Session(map[], map[], [], None, 0)

  function Price(kind: AssetKind): nat {
    match kind
    case Car => CAR_PRICE
    case Home => HOME_PRICE
  }

  function PlacementOf(kind: AssetKind): Placement {
    match kind
    case Car => Placement(350, -90, 600_000)
    case Home => Placement(500, 0, -300_000)
  }

  /** Height of the savings label above an asset. */
  function LabelOffset(kind: AssetKind): int {
    match kind
    case Car => 500_000
    case Home => 750_000
  }

  /** Every top-level node other than the current anchor is empty. */
  predicate OnlyAnchorPopulated(s: Session) {
    forall r :: r in s.roots && Some(r) != s.anchor ==> r in s.arena && |s.arena[r].children| == 0
  }

  /** Identities below `next` are used, those from `next` on are free. */
  predicate FreshAbove(s: Session) {
    forall k :: k in s.arena ==> k < s.next
  }

  predicate Valid(s: Session) {
    && WellFormed(s.arena)
    && FreshAbove(s)
    && NoDuplicates(s.roots)
    && (forall r :: r in s.roots ==> r in s.arena && s.arena[r].parent == None)
    && (s.anchor.Some? ==> s.anchor.value in s.arena && s.arena[s.anchor.value].parent == None)
    && OnlyAnchorPopulated(s)
  }

  lemma InitialValid()
    ensures Valid(Initial)
  {
  }

  // ---------------------------------------------------------------------
  // Plane taps
  // ---------------------------------------------------------------------

  /** The arena is well formed, the current anchor, if any, is in it, and every used identity is below `next`. */
  predicate Ready(s: Session) {
    && WellFormed(s.arena)
    && FreshAbove(s)
    && (s.anchor.Some? ==> s.anchor.value in s.arena)
  }

  /** A plane tap: clear the current anchor, if any, and make a new empty anchor current. */
  function Tap(s: Session): (s': Session)
    requires Ready(s)
    ensures Ready(s') && s'.anchor == Some(s.next)
    ensures s'.arena.Keys == s.arena.Keys + {s.next} && s'.roots == s.roots
  {
    var cleared := if s.anchor.Some? then Clear(s.arena, s.anchor.value) else s.arena;
    assert WellFormed(cleared) by {
      if s.anchor.Some? {
        ClearWellFormed(s.arena, s.anchor.value);
      }
    }
    NewNodeWellFormed(cleared, s.next);
    s.(arena := NewNode(cleared, s.next), anchor := Some(s.next), next := s.next + 1)
  }

  /**
   After a tap the new anchor is a fresh node with no parent and no children;
   the old anchor has lost all its content and its own parent link, its
   former children are detached, and every other node is as it was. An old
   anchor that was shown stays in the scene, empty.
   */
  lemma TapEffect(s: Session)
    requires Ready(s)
    ensures s.next !in s.arena
    ensures Tap(s).arena[s.next].parent == None && |Tap(s).arena[s.next].children| == 0
    ensures s.anchor.Some? ==> |Tap(s).arena[s.anchor.value].children| == 0 && Tap(s).arena[s.anchor.value].parent == None
    ensures s.anchor.Some? ==> forall c :: c in s.arena && s.arena[c].parent == s.anchor ==> Tap(s).arena[c].parent == None
    ensures s.anchor.None? ==> forall m :: m in s.arena ==> Tap(s).arena[m] == s.arena[m]
    ensures s.anchor.Some? ==> forall m ::
      (m in s.arena && m != s.anchor.value && s.arena[m].parent != s.anchor && s.arena[s.anchor.value].parent != Some(m))
      ==> Tap(s).arena[m] == s.arena[m]
  {
    if s.anchor.Some? {
      ClearEffect(s.arena, s.anchor.value);
    }
  }

  lemma TapValid(s: Session)
    requires Valid(s)
    ensures Valid(Tap(s))
  {
    var cleared := if s.anchor.Some? then Clear(s.arena, s.anchor.value) else s.arena;
    if s.anchor.Some? {
      var an := s.anchor.value;
      ClearWellFormed(s.arena, an);
      ClearEffect(s.arena, an);
      forall r | r in s.roots
        ensures cleared[r].parent == None
        ensures r != an ==> |cleared[r].children| == 0
      {
      }
    }
    NewNodeWellFormed(cleared, s.next);
  }

  // ---------------------------------------------------------------------
  // Attaching fresh nodes under the anchor
  // ---------------------------------------------------------------------

  /** `an` exists and all its children, like every node, lie below `next`. */
  predicate CanAttach(s: Session, an: NodeId) {
    && an in s.arena
    && FreshAbove(s)
    && (forall c :: c in s.arena[an].children ==> c < s.next)
  }

  lemma ValidCanAttach(s: Session)
    requires Valid(s) && s.anchor.Some?
    ensures CanAttach(s, s.anchor.value)
  {
    var an := s.anchor.value;
    assert forall c :: c in s.arena[an].children ==> c in s.arena;
  }

  /** Make a fresh node drawing `look` and add it as the last child of `an`. */
  function AttachNew(s: Session, an: NodeId, look: Look): (s': Session)
    requires CanAttach(s, an)
    ensures CanAttach(s', an)
    ensures s'.arena.Keys == s.arena.Keys + {s.next}
    ensures s'.next == s.next + 1 && s'.roots == s.roots && s'.anchor == s.anchor
  {
    var k := s.next;
    var a1 := NewNode(s.arena, k);
    AddChildEffect(a1, an, k);
    s.(arena := AddChild(a1, an, k), looks := s.looks[k := look], next := k + 1)
  }

  /** The fresh node becomes the last child of `an` and draws `look`; no other node changes. */
  lemma AttachNewEffect(s: Session, an: NodeId, look: Look)
    requires CanAttach(s, an)
    ensures AttachNew(s, an, look).arena[an] == s.arena[an].(children := s.arena[an].children + [s.next])
    ensures AttachNew(s, an, look).arena[s.next] == Node(Some(an), [])
    ensures AttachNew(s, an, look).looks == s.looks[s.next := look]
    ensures forall m :: m in s.arena && m != an ==> AttachNew(s, an, look).arena[m] == s.arena[m]
  {
    AddChildEffect(NewNode(s.arena, s.next), an, s.next);
  }

  lemma AttachNewValid(s: Session, an: NodeId, look: Look)
    requires Valid(s) && s.anchor == Some(an)
    ensures CanAttach(s, an)
    ensures Valid(AttachNew(s, an, look))
  {
    ValidCanAttach(s);
    var s' := AttachNew(s, an, look);
    assert WellFormed(s'.arena) by {
      NewNodeWellFormed(s.arena, s.next);
      AddChildWellFormed(NewNode(s.arena, s.next), an, s.next);
    }
    AttachNewEffect(s, an, look);
    forall r | r in s.roots
      ensures s'.arena[r].parent == None
      ensures r != an ==> |s'.arena[r].children| == 0
    {
    }
  }

  /** The node identities k, k + 1, ..., k + count - 1. */
  function FreshIds(k: NodeId, count: nat): (ids: seq<NodeId>)
    ensures |ids| == count
  {
    if count == 0 then [] else FreshIds(k, count - 1) + [k + count - 1]
  }

  /** For each pile in order: a base node, then a face node, both under `an`. */
  function AttachPiles(s: Session, an: NodeId, piles: seq<Pile>): (s': Session)
    requires CanAttach(s, an)
    ensures CanAttach(s', an)
    ensures s'.next == s.next + 2 * |piles| && s'.roots == s.roots && s'.anchor == s.anchor
    ensures s.arena.Keys <= s'.arena.Keys
    decreases |piles|
  {
    if |piles| == 0 then s
    else
      var pile := piles[|piles| - 1];
      var s1 := AttachPiles(s, an, piles[..|piles| - 1]);
      var s2 := AttachNew(s1, an, PileBase(pile));
      AttachNew(s2, an, PileFace(pile))
  }

  /** One more pile: its base node and then its face node go on top of the earlier piles. */
  lemma AttachPilesStep(s: Session, an: NodeId, piles: seq<Pile>)
    requires CanAttach(s, an) && |piles| > 0
    ensures var s1 := AttachPiles(s, an, piles[..|piles| - 1]);
      AttachPiles(s, an, piles) == AttachNew(AttachNew(s1, an, PileBase(piles[|piles| - 1])), an, PileFace(piles[|piles| - 1]))
  {
  }

  /**
   Appending the next two identities extends a run of fresh identities by two.
   The intermediate lists and the sums `k + c` are parameters so that the
   caller's proof never has to unfold arithmetic inside a sequence display;
   the same holds for `AppendOneFresh`, `TwoAppended`, `DrawsThenCoin` and
   `DrawsCashFrame` below.
   */
  lemma AppendTwoFresh(c0: seq<NodeId>, x1: seq<NodeId>, x2: seq<NodeId>, x3: seq<NodeId>, k: NodeId, c: nat, c2: nat, a: NodeId, b: NodeId)
    requires c2 == c + 2 && a == k + c && b == k + c + 1
    requires x1 == c0 + FreshIds(k, c)
    requires x2 == x1 + [a] && x3 == x2 + [b]
    ensures x3 == c0 + FreshIds(k, c2)
  {
    assert FreshIds(k, c2) == FreshIds(k, c) + [k + c] + [k + c + 1];
  }

  /** The piles' nodes are appended under `an` in placement order, base before face. */
  lemma {:induction false} AttachPilesChildren(s: Session, an: NodeId, piles: seq<Pile>)
    requires CanAttach(s, an)
    ensures AttachPiles(s, an, piles).arena[an].children == s.arena[an].children + FreshIds(s.next, 2 * |piles|)
    ensures AttachPiles(s, an, piles).arena[an].parent == s.arena[an].parent
    decreases |piles|
  {
    if |piles| > 0 {
      var front, last := piles[..|piles| - 1], piles[|piles| - 1];
      var s1 := AttachPiles(s, an, front);
      AttachPilesChildren(s, an, front);
      var s2 := AttachNew(s1, an, PileBase(last));
      AttachNewEffect(s1, an, PileBase(last));
      AttachNewEffect(s2, an, PileFace(last));
      AttachPilesStep(s, an, piles);
      var s3 := AttachNew(s2, an, PileFace(last));
      AppendTwoFresh(s.arena[an].children, s1.arena[an].children, s2.arena[an].children, s3.arena[an].children,
        s.next, 2 * |front|, 2 * |piles|, s1.next, s2.next);
    }
  }

  /** No node that existed before, other than `an`, changes. */
  lemma {:induction false} AttachPilesFrame(s: Session, an: NodeId, piles: seq<Pile>)
    requires CanAttach(s, an)
    ensures forall m :: m in s.arena && m != an ==> AttachPiles(s, an, piles).arena[m] == s.arena[m]
    decreases |piles|
  {
    if |piles| > 0 {
      var n := |piles|;
      var s1 := AttachPiles(s, an, piles[..n - 1]);
      AttachPilesFrame(s, an, piles[..n - 1]);
      var s2 := AttachNew(s1, an, PileBase(piles[n - 1]));
      AttachNewEffect(s1, an, PileBase(piles[n - 1]));
      AttachNewEffect(s2, an, PileFace(piles[n - 1]));
    }
  }

  /** Node `k + 2 i` draws the base of pile i and node `k + 2 i + 1` its face. */
  predicate DrawsPiles(looks: map<NodeId, Look>, k: NodeId, piles: seq<Pile>) {
    forall i :: 0 <= i < |piles| ==>
      && k + 2 * i in looks && looks[k + 2 * i] == PileBase(piles[i])
      && k + 2 * i + 1 in looks && looks[k + 2 * i + 1] == PileFace(piles[i])
  }

  lemma DrawsOneMore(l1: map<NodeId, Look>, l3: map<NodeId, Look>, k: NodeId, piles: seq<Pile>, a: NodeId, b: NodeId)
    requires |piles| > 0 && DrawsPiles(l1, k, piles[..|piles| - 1])
    requires a == k + 2 * (|piles| - 1) && b == a + 1
    requires l3 == l1[a := PileBase(piles[|piles| - 1])][b := PileFace(piles[|piles| - 1])]
    ensures DrawsPiles(l3, k, piles)
  {
    forall i | 0 <= i < |piles|
      ensures k + 2 * i in l3 && l3[k + 2 * i] == PileBase(piles[i])
      ensures k + 2 * i + 1 in l3 && l3[k + 2 * i + 1] == PileFace(piles[i])
    {
      if i < |piles| - 1 {
        assert piles[i] == piles[..|piles| - 1][i];
      }
    }
  }

  lemma {:induction false} AttachPilesLooks(s: Session, an: NodeId, piles: seq<Pile>)
    requires CanAttach(s, an)
    ensures DrawsPiles(AttachPiles(s, an, piles).looks, s.next, piles)
    decreases |piles|
  {
    if |piles| > 0 {
      var front, last := piles[..|piles| - 1], piles[|piles| - 1];
      var s1 := AttachPiles(s, an, front);
      AttachPilesLooks(s, an, front);
      var s2 := AttachNew(s1, an, PileBase(last));
      AttachNewEffect(s1, an, PileBase(last));
      AttachNewEffect(s2, an, PileFace(last));
      AttachPilesStep(s, an, piles);
      DrawsOneMore(s1.looks, AttachPiles(s, an, piles).looks, s.next, piles, s1.next, s2.next);
    }
  }

  lemma {:induction false} AttachPilesValid(s: Session, an: NodeId, piles: seq<Pile>)
    requires Valid(s) && s.anchor == Some(an)
    ensures CanAttach(s, an)
    ensures Valid(AttachPiles(s, an, piles))
    decreases |piles|
  {
    ValidCanAttach(s);
    if |piles| > 0 {
      var n := |piles|;
      var s1 := AttachPiles(s, an, piles[..n - 1]);
      AttachPilesValid(s, an, piles[..n - 1]);
      AttachNewValid(s1, an, PileBase(piles[n - 1]));
      AttachNewValid(AttachNew(s1, an, PileBase(piles[n - 1])), an, PileFace(piles[n - 1]));
    }
  }

  // ---------------------------------------------------------------------
  // Rebuilds
  // ---------------------------------------------------------------------

  /** The node can be hung under the anchor: it exists, is not shown on its own and is not the anchor. */
  predicate Attachable(s: Session, n: NodeId) {
    n in s.arena && n !in s.roots && s.anchor != Some(n)
  }

  /**
   The cash view for `total`: clear the anchor, then attach a base and a face
   node per pile in placement order, then the coin, then the label at its
   computed height. Without an anchor nothing happens.
   */
  function RebuildCash(s: Session, total: nat, text: NodeId): (s': Session)
    requires Ready(s) && text in s.arena && s.anchor != Some(text)
    ensures s'.anchor == s.anchor && s'.roots == s.roots && s.arena.Keys <= s'.arena.Keys
  {
    match s.anchor
    case None => s
    case Some(an) => HangCash(s, an, CashLayoutOf(total), text)
  }

  /** Under `an`: the piles' and coin's nodes of `layout`, then the label node `text` at the layout's label height. */
  function HangCash(s: Session, an: NodeId, layout: Layout, text: NodeId): (s': Session)
    requires Ready(s) && an in s.arena && text in s.arena && an != text
    ensures s'.anchor == s.anchor && s'.roots == s.roots && s.arena.Keys <= s'.arena.Keys
  {
    var s3 := CashBody(s, an, layout);
    s3.(arena := AddChild(s3.arena, an, text), looks := s3.looks[text := Label(layout.labelHeight)])
  }

  /** Clearing the anchor keeps the session valid. */
  lemma ClearAnchorValid(s: Session)
    requires Valid(s) && s.anchor.Some?
    ensures Valid(s.(arena := Clear(s.arena, s.anchor.value)))
  {
    var an := s.anchor.value;
    ClearWellFormed(s.arena, an);
    ClearEffect(s.arena, an);
    forall r | r in s.roots
      ensures Clear(s.arena, an)[r].parent == None
      ensures r != an ==> |Clear(s.arena, an)[r].children| == 0
    {
    }
  }

  /** Hanging an attachable node under the anchor keeps the session valid. */
  lemma AttachExistingValid(s: Session, an: NodeId, n: NodeId)
    requires Valid(s) && s.anchor == Some(an) && Attachable(s, n)
    ensures Valid(s.(arena := AddChild(s.arena, an, n)))
  {
    AddChildWellFormed(s.arena, an, n);
    WellFormedLinked(s.arena, n);
    assert n in s.arena[an].children <==> s.arena[n].parent == Some(an);
    AddChildEffect(s.arena, an, n);
    var a := AddChild(s.arena, an, n);
    forall r | r in s.roots
      ensures a[r].parent == None
      ensures r != an ==> |a[r].children| == 0
    {
      if r != an {
        assert |s.arena[r].children| == 0;
      }
    }
  }

  /** Hanging an existing node under a node that does not hold it appends it, leaving that node's parent alone. */
  lemma AppendUnder(a: Arena, an: NodeId, n: NodeId)
    requires WellFormed(a) && an in a && n in a && n != an
    requires n !in a[an].children
    ensures AddChild(a, an, n)[an] == a[an].(children := a[an].children + [n])
    ensures AddChild(a, an, n)[n].parent == Some(an)
    ensures forall m :: m in a && m != an && m != n ==> AddChild(a, an, n)[m].parent == a[m].parent
  {
    WellFormedLinked(a, n);
    AddChildEffect(a, an, n);
  }

  lemma AttachNewWellFormed(s: Session, an: NodeId, look: Look)
    requires CanAttach(s, an) && WellFormed(s.arena)
    ensures WellFormed(AttachNew(s, an, look).arena)
  {
    NewNodeWellFormed(s.arena, s.next);
    AddChildWellFormed(NewNode(s.arena, s.next), an, s.next);
  }

  lemma {:induction false} AttachPilesWellFormed(s: Session, an: NodeId, piles: seq<Pile>)
    requires CanAttach(s, an) && WellFormed(s.arena)
    ensures WellFormed(AttachPiles(s, an, piles).arena)
    decreases |piles|
  {
    if |piles| > 0 {
      var n := |piles|;
      var s1 := AttachPiles(s, an, piles[..n - 1]);
      AttachPilesWellFormed(s, an, piles[..n - 1]);
      AttachNewWellFormed(s1, an, PileBase(piles[n - 1]));
      AttachNewWellFormed(AttachNew(s1, an, PileBase(piles[n - 1])), an, PileFace(piles[n - 1]));
    }
  }

  lemma {:induction false} FreshIdsRange(k: NodeId, count: nat)
    ensures forall x :: x in FreshIds(k, count) ==> k <= x < k + count
  {
    if count > 0 {
      FreshIdsRange(k, count - 1);
    }
  }

  /** Appending the next identity to a run of fresh identities extends it by one. */
  lemma AppendOneFresh(e: seq<NodeId>, x0: seq<NodeId>, x1: seq<NodeId>, k: NodeId, c: nat, c1: nat, a: NodeId)
    requires |e| == 0 && c1 == c + 1 && a == k + c
    requires x0 == e + FreshIds(k, c) && x1 == x0 + [a]
    ensures x1 == FreshIds(k, c1)
  {
    assert e + FreshIds(k, c) == FreshIds(k, c);
  }

  /** A cash rebuild up to the coin: clear `an`, attach the piles' nodes, then the coin's. */
  function CashBody(s: Session, an: NodeId, layout: Layout): (s': Session)
    requires Ready(s) && an in s.arena
    ensures CanAttach(s', an) && WellFormed(s'.arena)
    ensures s.arena.Keys <= s'.arena.Keys && s'.next == s.next + 2 * |layout.piles| + 1
    ensures s'.anchor == s.anchor && s'.roots == s.roots
  {
    var s1 := s.(arena := Clear(s.arena, an));
    ClearEffect(s.arena, an);
    ClearWellFormed(s.arena, an);
    var s2 := AttachPiles(s1, an, layout.piles);
    AttachPilesWellFormed(s1, an, layout.piles);
    AttachNewWellFormed(s2, an, CoinBase(layout.coin));
    AttachNew(s2, an, CoinBase(layout.coin))
  }

  lemma CashBodyStep(s: Session, an: NodeId, layout: Layout)
    requires Ready(s) && an in s.arena
    ensures var s1 := s.(arena := Clear(s.arena, an));
      && CanAttach(s1, an)
      && CashBody(s, an, layout) == AttachNew(AttachPiles(s1, an, layout.piles), an, CoinBase(layout.coin))
  {
    ClearEffect(s.arena, an);
  }

  /** Under `an` after the body of a cash rebuild: the piles' nodes in placement order, then the coin's node. */
  lemma CashBodyChildren(s: Session, an: NodeId, layout: Layout)
    requires Ready(s) && an in s.arena
    ensures CashBody(s, an, layout).arena[an].children == FreshIds(s.next, 2 * |layout.piles| + 1)
  {
    var s1 := s.(arena := Clear(s.arena, an));
    ClearEffect(s.arena, an);
    ClearWellFormed(s.arena, an);
    var s2 := AttachPiles(s1, an, layout.piles);
    AttachPilesChildren(s1, an, layout.piles);
    var s3 := AttachNew(s2, an, CoinBase(layout.coin));
    AttachNewEffect(s2, an, CoinBase(layout.coin));
    AppendOneFresh(s1.arena[an].children, s2.arena[an].children, s3.arena[an].children,
      s.next, 2 * |layout.piles|, 2 * |layout.piles| + 1, s2.next);
  }

  /** From identity `k` on: each pile's base and face in placement order, then the coin. */
  predicate DrawsCash(looks: map<NodeId, Look>, k: NodeId, layout: Layout) {
    && DrawsPiles(looks, k, layout.piles)
    && k + 2 * |layout.piles| in looks
    && looks[k + 2 * |layout.piles|] == CoinBase(layout.coin)
  }

  /** What the body of a cash rebuild draws: each pile's base and face, then the coin. */
  lemma CashBodyLooks(s: Session, an: NodeId, layout: Layout)
    requires Ready(s) && an in s.arena
    ensures DrawsCash(CashBody(s, an, layout).looks, s.next, layout)
  {
    var s1 := s.(arena := Clear(s.arena, an));
    CashBodyStep(s, an, layout);
    var s2 := AttachPiles(s1, an, layout.piles);
    AttachPilesLooks(s1, an, layout.piles);
    AttachNewEffect(s2, an, CoinBase(layout.coin));
    DrawsThenCoin(s2.looks, CashBody(s, an, layout).looks, s.next, layout, s2.next);
  }

  /** Drawing the coin at the identity after the piles' completes the cash drawing. */
  lemma DrawsThenCoin(l: map<NodeId, Look>, l': map<NodeId, Look>, k: NodeId, layout: Layout, key: NodeId)
    requires DrawsPiles(l, k, layout.piles)
    requires key == k + 2 * |layout.piles| && l' == l[key := CoinBase(layout.coin)]
    ensures DrawsCash(l', k, layout)
  {
  }

  /** Apart from `an`, the body of a cash rebuild changes only what clearing `an` changes. */
  lemma CashBodyFrame(s: Session, an: NodeId, layout: Layout)
    requires Ready(s) && an in s.arena
    ensures forall m :: m in s.arena && m != an ==> CashBody(s, an, layout).arena[m] == Clear(s.arena, an)[m]
  {
    var s1 := s.(arena := Clear(s.arena, an));
    ClearEffect(s.arena, an);
    var s2 := AttachPiles(s1, an, layout.piles);
    AttachPilesFrame(s1, an, layout.piles);
    AttachNewEffect(s2, an, CoinBase(layout.coin));
  }

  /** Afterwards `an` holds the piles' nodes in placement order, then the coin's, then the label. */
  lemma HangCashChildren(s: Session, an: NodeId, layout: Layout, text: NodeId)
    requires Ready(s) && an in s.arena && text in s.arena && an != text
    ensures HangCash(s, an, layout, text).arena[an].children == FreshIds(s.next, 2 * |layout.piles| + 1) + [text]
  {
    var s3 := CashBody(s, an, layout);
    CashBodyChildren(s, an, layout);
    FreshIdsRange(s.next, 2 * |layout.piles| + 1);
    assert text < s.next;
    AppendUnder(s3.arena, an, text);
  }

  /** Afterwards each pile's base and face, the coin and the label are drawn as the layout says. */
  lemma HangCashLooks(s: Session, an: NodeId, layout: Layout, text: NodeId)
    requires Ready(s) && an in s.arena && text in s.arena && an != text
    ensures DrawsCash(HangCash(s, an, layout, text).looks, s.next, layout)
    ensures text in HangCash(s, an, layout, text).looks
    ensures HangCash(s, an, layout, text).looks[text] == Label(layout.labelHeight)
  {
    var s3 := CashBody(s, an, layout);
    CashBodyLooks(s, an, layout);
    assert text < s.next;
    DrawsCashFrame(s3.looks, s.next, layout, text, Label(layout.labelHeight));
  }

  /** An update below the cash's identities keeps what they draw. */
  lemma DrawsCashFrame(l: map<NodeId, Look>, k: NodeId, layout: Layout, key: NodeId, v: Look)
    requires DrawsCash(l, k, layout) && key < k
    ensures DrawsCash(l[key := v], k, layout)
  {
  }

  /** Every node that hung under `an` before, except the label hung back, is detached. */
  lemma HangCashDetached(s: Session, an: NodeId, layout: Layout, text: NodeId)
    requires Ready(s) && an in s.arena && text in s.arena && an != text
    ensures forall c :: c in s.arena && s.arena[c].parent == Some(an) && c != text ==>
      HangCash(s, an, layout, text).arena[c].parent == None
  {
    var s3 := CashBody(s, an, layout);
    ClearEffect(s.arena, an);
    CashBodyFrame(s, an, layout);
    CashBodyChildren(s, an, layout);
    FreshIdsRange(s.next, 2 * |layout.piles| + 1);
    assert text < s.next;
    AppendUnder(s3.arena, an, text);
    forall c | c in s.arena && s.arena[c].parent == Some(an) && c != text
      ensures HangCash(s, an, layout, text).arena[c].parent == None
    {
      ParentInArena(s.arena, an, c);
    }
  }

  /**
   A rebuild that runs against an anchor that is shown but no longer current
   (one queued before a tap and delivered after it) fills that old anchor
   again, so the session is no longer valid.
   */
  lemma StaleRebuildBreaksValid(s: Session, prev: NodeId, layout: Layout, text: NodeId)
    requires Ready(s) && prev in s.arena && text in s.arena && prev != text
    requires prev in s.roots && s.anchor != Some(prev)
    ensures !Valid(HangCash(s, prev, layout, text))
  {
    HangCashChildren(s, prev, layout, text);
  }

  /** The body of a cash rebuild keeps the session valid. */
  lemma CashBodyValid(s: Session, an: NodeId, layout: Layout)
    requires Valid(s) && s.anchor == Some(an)
    ensures Valid(CashBody(s, an, layout))
  {
    var s1 := s.(arena := Clear(s.arena, an));
    ClearAnchorValid(s);
    CashBodyStep(s, an, layout);
    var s2 := AttachPiles(s1, an, layout.piles);
    AttachPilesValid(s1, an, layout.piles);
    AttachNewValid(s2, an, CoinBase(layout.coin));
  }

  /** A cash rebuild keeps the session valid. */
  lemma RebuildCashValid(s: Session, total: nat, text: NodeId)
    requires Valid(s) && Attachable(s, text)
    ensures Valid(RebuildCash(s, total, text))
  {
    if s.anchor.Some? {
      var an, layout := s.anchor.value, CashLayoutOf(total);
      CashBodyValid(s, an, layout);
      AttachExistingValid(CashBody(s, an, layout), an, text);
    }
  }

  /**
   The car or house view: clear the anchor, hang the asset node (drawn with
   the materials the reveal assigns for these savings) and then the label.
   */
  function RebuildAsset(s: Session, kind: AssetKind, savings: nat, order: seq<nat>, asset: NodeId, text: NodeId): (s': Session)
    requires Ready(s) && asset in s.arena && text in s.arena && asset != text
    requires s.anchor != Some(asset) && s.anchor != Some(text)
    ensures s'.anchor == s.anchor && s'.roots == s.roots
  {
    match s.anchor
    case None => s
    case Some(an) =>
      var a1 := Clear(s.arena, an);
      var a2 := AddChild(a1, an, asset);
      var a3 := AddChild(a2, an, text);
      var model := AssetModel(kind, PlacementOf(kind), Materials(savings, Price(kind), order));
      s.(arena := a3, looks := s.looks[asset := model][text := Label(LabelOffset(kind))])
  }

  /** Two appends to an empty list give the two-element list. */
  lemma TwoAppended(x0: seq<NodeId>, x1: seq<NodeId>, x2: seq<NodeId>, a: NodeId, b: NodeId)
    requires |x0| == 0 && x1 == x0 + [a] && x2 == x1 + [b]
    ensures x2 == [a, b]
  {
  }

  /** After an asset rebuild the anchor holds the asset then the label, and nothing else. */
  lemma RebuildAssetChildren(s: Session, kind: AssetKind, savings: nat, order: seq<nat>, asset: NodeId, text: NodeId)
    requires Ready(s) && asset in s.arena && text in s.arena && asset != text
    requires s.anchor.Some? && s.anchor != Some(asset) && s.anchor != Some(text)
    ensures RebuildAsset(s, kind, savings, order, asset, text).arena[s.anchor.value].children == [asset, text]
  {
    var an := s.anchor.value;
    var a1 := Clear(s.arena, an);
    ClearEffect(s.arena, an);
    ClearWellFormed(s.arena, an);
    AppendUnder(a1, an, asset);
    var a2 := AddChild(a1, an, asset);
    AddChildWellFormed(a1, an, asset);
    AppendUnder(a2, an, text);
    TwoAppended(a1[an].children, a2[an].children, AddChild(a2, an, text)[an].children, asset, text);
  }

  /** An asset rebuild detaches every other node that hung under the anchor. */
  lemma RebuildAssetDetached(s: Session, kind: AssetKind, savings: nat, order: seq<nat>, asset: NodeId, text: NodeId)
    requires Ready(s) && asset in s.arena && text in s.arena && asset != text
    requires s.anchor.Some? && s.anchor != Some(asset) && s.anchor != Some(text)
    ensures forall c :: c in s.arena && s.arena[c].parent == s.anchor && c != asset && c != text ==>
      RebuildAsset(s, kind, savings, order, asset, text).arena[c].parent == None
  {
    var an := s.anchor.value;
    var a1 := Clear(s.arena, an);
    ClearEffect(s.arena, an);
    ClearWellFormed(s.arena, an);
    AppendUnder(a1, an, asset);
    AddChildWellFormed(a1, an, asset);
    AppendUnder(AddChild(a1, an, asset), an, text);
    forall c | c in s.arena && s.arena[c].parent == s.anchor && c != asset && c != text
      ensures RebuildAsset(s, kind, savings, order, asset, text).arena[c].parent == None
    {
      ParentInArena(s.arena, an, c);
    }
  }

  /** The asset is drawn with the reveal's materials for these savings and the label sits at the asset's offset. */
  lemma RebuildAssetLooks(s: Session, kind: AssetKind, savings: nat, order: seq<nat>, asset: NodeId, text: NodeId)
    requires Ready(s) && asset in s.arena && text in s.arena && asset != text
    requires s.anchor.Some? && s.anchor != Some(asset) && s.anchor != Some(text)
    ensures var s' := RebuildAsset(s, kind, savings, order, asset, text);
      && asset in s'.looks && s'.looks[asset] == AssetModel(kind, PlacementOf(kind), Materials(savings, Price(kind), order))
      && text in s'.looks && s'.looks[text] == Label(LabelOffset(kind))
  {
  }

  /** An asset rebuild keeps the session valid. */
  lemma RebuildAssetValid(s: Session, kind: AssetKind, savings: nat, order: seq<nat>, asset: NodeId, text: NodeId)
    requires Valid(s) && Attachable(s, asset) && Attachable(s, text) && asset != text
    ensures Valid(RebuildAsset(s, kind, savings, order, asset, text))
  {
    if s.anchor.Some? {
      var an := s.anchor.value;
      var s1 := s.(arena := Clear(s.arena, an));
      ClearAnchorValid(s);
      AttachExistingValid(s1, an, asset);
      AttachExistingValid(s1.(arena := AddChild(s1.arena, an, asset)), an, text);
    }
  }

  // ---------------------------------------------------------------------
  // Showing the anchor
  // ---------------------------------------------------------------------

  /** Hand the rebuilt anchor to the scene: add it to the top-level nodes unless it is already there. */
  function Show(s: Session): (s': Session)
    ensures s'.arena == s.arena && s'.anchor == s.anchor
    ensures s.anchor.Some? ==> s.anchor.value in s'.roots
  {
    match s.anchor
    case None => s
    case Some(an) => if an in s.roots then s else s.(roots := s.roots + [an])
  }

  /** Showing puts the anchor in the scene once, adds nothing else, and keeps the session valid. */
  lemma ShowEffect(s: Session)
    requires Valid(s)
    ensures Valid(Show(s))
    ensures Show(s).arena == s.arena && Show(s).anchor == s.anchor
    ensures s.anchor.Some? ==> s.anchor.value in Show(s).roots
    ensures forall r :: r in s.roots ==> r in Show(s).roots
    ensures forall r :: r in Show(s).roots ==> r in s.roots || Some(r) == s.anchor
  {
    if s.anchor.Some? && s.anchor.value !in s.roots {
      AppendDistinct(s.roots, s.anchor.value);
    }
  }

  /**
   A tap followed by a cash rebuild and a show leaves a valid session whose
   new anchor is in the scene; by `Valid`, every other top-level node of the
   scene is then empty.
   */
  lemma TapThenCashValid(s: Session, total: nat, text: NodeId)
    requires Valid(s) && text in s.arena && text !in s.roots
    ensures var s' := Show(RebuildCash(Tap(s), total, text));
      && Valid(s')
      && s'.anchor == Some(s.next)
      && s.next in s'.roots
  {
    TapValid(s);
    RebuildCashValid(Tap(s), total, text);
    ShowEffect(RebuildCash(Tap(s), total, text));
  }

  /** After a tap, a cash rebuild and a show, the new anchor holds a base and a face node per pile, the coin and the label. */
  lemma TapThenCashShown(s: Session, total: nat, text: NodeId)
    requires Valid(s) && text in s.arena && text !in s.roots
    ensures |Show(RebuildCash(Tap(s), total, text)).arena[s.next].children| == 2 * |CashLayoutOf(total).piles| + 2
  {
    TapValid(s);
    HangCashChildren(Tap(s), s.next, CashLayoutOf(total), text);
  }
}
