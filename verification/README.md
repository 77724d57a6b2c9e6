# AR-Savings: cash piles, asset reveal and the anchor's scene subtree

AR-Savings is an Android augmented-reality app. It shows how much a savings
plan will be worth by standing a 3-D object on a tapped plane. The object is
one of three:

- piles of 100-kronor bills with a stack of coins;
- a car;
- a house.

The car and the house are revealed submesh by submesh in proportion to the
share of their price that has been saved. This project models the part of
the app that decides what goes under the tapped anchor:

- **`Spiral`** (`spiral.dfy`): the square spiral that the piles of bills
  follow. It is given as a step-by-step walk (`Advance`, `CursorAt`) together
  with its closed-form inverse (`SpiralIndex`). The model proves the two
  agree, so the walk never revisits a cell and reaches every cell.
- **`CashLayout`** (`cash_layout.dfy`): turning a savings total into:
  - whole bills and loose kronor;
  - the piles, each capped at half a metre of bills;
  - the coin stack behind the furthest pile;
  - the label's height.

  All lengths are whole micrometres. A bill is 125 µm thick and a coin is
  1 790 µm thick. The placement loop as the app writes it is `PlacePiles`.
- **`Reveal`** (`reveal.dfy`): how many submeshes of the car or house keep
  their own material, and which ones, for a given shuffled submesh order.
- **`SceneTree`** (`scene_tree.dfy`): the scene graph as an arena of nodes
  with parent and child links. It provides `AddChild`, `RemoveChild` and the
  anchor's `clear` extension: detach every child, then detach the node from
  its own parent.
- **`Composer`** (`composer.dfy`): the app's session:
  - a plane tap clears the previous anchor and makes a fresh one current;
  - a cash rebuild or an asset rebuild clears the current anchor and hangs
    the new nodes under it in order;
  - the fragment shows the anchor by adding it to the scene unless it is
    there already.

  `Valid` is the session invariant. It holds when the links are consistent,
  every node in use has an identity below `next`, each shown node has no
  parent and is listed once, and every shown node other than the current
  anchor is empty. Rebuilds are modelled against the current anchor; a cash
  rebuild that reaches an old anchor breaks the invariant
  (`StaleRebuildBreaksValid`).

`Wrappers` (`wrappers.dfy`) holds the `Option` type.

Three behaviours of the app are easy to misread; the model follows the code:

- With no savings there are no piles. Since `numPiles != 1`, the label then
  sits at a full pile's height plus the padding (`ExampleNothingSaved`), not
  at the bare padding.
- `clear` removes only the anchor's direct children. Their own subtrees stay
  intact, and the anchor is detached from its parent rather than being
  destroyed.
- An anchor node is shown directly under the scene. A node hung under the
  scene reports no parent, because the scene is not itself a node, so the
  last step of `clear` finds nothing to detach from and leaves the old anchor
  among the scene's top-level nodes, empty.

## Model

All source paths are under `app/src/main/java/se/dset/android/arsavings/`;
the table writes them in full.

| member | source | states |
|---|---|---|
| CashLayout.SplitTotal | app/src/main/java/se/dset/android/arsavings/ArSavingsModel.kt:219-220 | the savings split into a whole number of hundreds (the notes) and fewer than 100 loose kronor that add back up to the total |
| CashLayout.SplitUnique | app/src/main/java/se/dset/android/arsavings/ArSavingsModel.kt:219-220 | any other way to write the total as hundreds plus fewer than 100 kronor is the same split |
| CashLayout.TotalHeight | app/src/main/java/se/dset/android/arsavings/ArSavingsModel.kt:221 | the stacked bills have height 0 exactly when less than one hundred is saved, and the height is a whole number of bill thicknesses |
| CashLayout.NumPiles | app/src/main/java/se/dset/android/arsavings/ArSavingsModel.kt:221-222 | the pile count is the ceiling of the stacked height over the cap: n-1 full piles fall short of it and n full piles reach it; there are no piles exactly when the total is below 100 |
| CashLayout.NumPilesCountsBills | app/src/main/java/se/dset/android/arsavings/ArSavingsModel.kt:221-222 | a full pile holds 4000 bills, so the pile count is the bill count divided by 4000, rounded up |
| CashLayout.NoPilesBelowOneHundred | app/src/main/java/se/dset/android/arsavings/ArSavingsModel.kt:219-222 | the layout has no piles exactly when less than one hundred is saved |
| CashLayout.PileHeight | app/src/main/java/se/dset/android/arsavings/ArSavingsModel.kt:233-238 | every pile is non-empty and no higher than the cap |
| CashLayout.Piles | app/src/main/java/se/dset/android/arsavings/ArSavingsModel.kt:233-262 | the layout has exactly as many piles as the pile count |
| CashLayout.PileAt | app/src/main/java/se/dset/android/arsavings/ArSavingsModel.kt:226-262 | pile k stands on the cell the spiral reaches after k steps and has the k-th pile height, so the piles follow the square spiral in order |
| CashLayout.PileHeightsCapped | app/src/main/java/se/dset/android/arsavings/ArSavingsModel.kt:233-238 | every pile but the last is exactly at the cap; the last is non-empty, at most the cap, and holds what is left of the total height |
| CashLayout.PileHeightsSum | app/src/main/java/se/dset/android/arsavings/ArSavingsModel.kt:221-238 | the piles' heights add up to the height of all the bills stacked, so no bill is lost or duplicated |
| Spiral.CursorAt | app/src/main/java/se/dset/android/arsavings/ArSavingsModel.kt:226-262 | after any number of steps the cursor faces along one axis with a unit step |
| Spiral.Advance | app/src/main/java/se/dset/android/arsavings/ArSavingsModel.kt:257-261 | one step keeps the direction a unit axis step, moves to a cell sharing an edge, and changes direction exactly when the turn rule holds at the current cell |
| Spiral.IndexOfCursor | app/src/main/java/se/dset/android/arsavings/ArSavingsModel.kt:226-229 | round trip: the closed-form spiral index of the cell reached after i steps is i, and from the first step on the cursor faces the way the spiral entered that cell |
| Spiral.SpiralInjective | app/src/main/java/se/dset/android/arsavings/ArSavingsModel.kt:226-261 | two different step counts never land on the same cell |
| Spiral.IndexInjective | app/src/main/java/se/dset/android/arsavings/ArSavingsModel.kt:257-261 | two cells with the same spiral index are the same cell |
| Spiral.CursorAtIndex | app/src/main/java/se/dset/android/arsavings/ArSavingsModel.kt:226-261 | the walk reaches every cell of the grid, after exactly its spiral index steps |
| Spiral.AdvanceOnTrack | app/src/main/java/se/dset/android/arsavings/ArSavingsModel.kt:257-261 | from any cell off the origin, facing the way the spiral reached it, one step moves exactly one place further along the spiral and stays on track |
| CashLayout.PilesOnDistinctCells | app/src/main/java/se/dset/android/arsavings/ArSavingsModel.kt:226-261 | no two piles of a layout share a grid cell |
| CashLayout.PilesAdjacent | app/src/main/java/se/dset/android/arsavings/ArSavingsModel.kt:257-261 | consecutive piles stand on cells that share an edge |
| CashLayout.FootprintsDisjoint | app/src/main/java/se/dset/android/arsavings/ArSavingsModel.kt:240-241 | piles on different cells are at least a bill plus padding apart along one axis, so their footprints never overlap |
| CashLayout.MaxSceneZ | app/src/main/java/se/dset/android/arsavings/ArSavingsModel.kt:231-242 | the running maximum is at least 0, at least every pile's depth, and is 0 or some pile's depth |
| CashLayout.CoinOf | app/src/main/java/se/dset/android/arsavings/ArSavingsModel.kt:264-268 | the coin stack stands at least one bill depth back and is fewer than 100 coins high |
| CashLayout.CoinBeyondPiles | app/src/main/java/se/dset/android/arsavings/ArSavingsModel.kt:231-268 | the coin stack lies one bill depth beyond the furthest pile, never in front of depth 0, and is as high as the loose kronor's coins (less than 100 coins) |
| CashLayout.LabelHeight | app/src/main/java/se/dset/android/arsavings/ArSavingsModel.kt:271 | the label is strictly above the bare padding and no higher than a full pile plus padding |
| CashLayout.LabelAbovePiles | app/src/main/java/se/dset/android/arsavings/ArSavingsModel.kt:271 | with one pile the label is the padding above it; otherwise it is at a full pile plus padding; either way it is above every pile |
| CashLayout.ExampleTwelveThousand | app/src/main/java/se/dset/android/arsavings/ArSavingsModel.kt:219-271 | 12345 kronor give one pile of 123 bills at the origin, 45 coins one bill depth back, and the label above that pile |
| CashLayout.BelowOneHundred | app/src/main/java/se/dset/android/arsavings/ArSavingsModel.kt:219-271 | below one hundred there are no piles, the loose kronor's coins stand at one bill depth, and the label is at a full pile plus padding |
| CashLayout.ExampleNothingSaved | app/src/main/java/se/dset/android/arsavings/ArSavingsModel.kt:219-271 | nothing saved gives no piles, an empty coin stack at one bill depth, and the label at a full pile's height plus padding |
| CashLayout.PlacementStep | app/src/main/java/se/dset/android/arsavings/ArSavingsModel.kt:233-261 | one pass of the placement loop extends the layout by the next pile on the spiral and keeps the running maximum depth |
| CashLayout.PlacePiles | app/src/main/java/se/dset/android/arsavings/ArSavingsModel.kt:226-262 | the loop as written places exactly the layout's piles and ends with the furthest pile's depth (or 0) |
| Reveal.NumMeshes | app/src/main/java/se/dset/android/arsavings/ArSavingsModel.kt:153 | never more submeshes are revealed than the model has |
| Reveal.Materials | app/src/main/java/se/dset/android/arsavings/ArSavingsModel.kt:153-160 | one material per submesh, each either that submesh's own material or the transparent one |
| Reveal.NumMeshesIsFloor | app/src/main/java/se/dset/android/arsavings/ArSavingsModel.kt:153 | below the cap, the revealed count is the saved share of the submeshes rounded down |
| Reveal.NumMeshesFull | app/src/main/java/se/dset/android/arsavings/ArSavingsModel.kt:153 | at the cap the whole price is covered, and once the price is saved every submesh is revealed |
| Reveal.NumMeshesMonotone | app/src/main/java/se/dset/android/arsavings/ArSavingsModel.kt:153 | saving more never reveals fewer submeshes |
| Reveal.EachSubmeshOnce | app/src/main/java/se/dset/android/arsavings/ArSavingsModel.kt:154 | the shuffled order visits every submesh exactly once |
| Reveal.RevealedCount | app/src/main/java/se/dset/android/arsavings/ArSavingsModel.kt:154-156 | exactly the requested number of distinct submeshes is revealed |
| Reveal.RevealedMonotone | app/src/main/java/se/dset/android/arsavings/ArSavingsModel.kt:153-156 | for a fixed order, the set of revealed submeshes only grows as savings grow |
| Reveal.AssignMaterials | app/src/main/java/se/dset/android/arsavings/ArSavingsModel.kt:154-160 | the loop gives the submesh at each position of the order its own material before the cut and the transparent one after it |
| Reveal.RevealAsset | app/src/main/java/se/dset/android/arsavings/ArSavingsModel.kt:153-160 | the loop's result equals the reference definition, where each submesh keeps its own material exactly when it is among the first revealed of the order |
| SceneTree.RemoveChild | app/src/main/java/se/dset/android/arsavings/AnchorNodeExt.kt:8-11 | removing keeps every node in the arena and changes nothing when the node is not a child of the given parent |
| SceneTree.RemoveChildEffect | app/src/main/java/se/dset/android/arsavings/AnchorNodeExt.kt:8 | removing a child takes it out of the parent's list, clears its parent link, and changes no other node |
| SceneTree.RemoveChildWellFormed | app/src/main/java/se/dset/android/arsavings/AnchorNodeExt.kt:8 | removing a child keeps the parent and child links consistent |
| SceneTree.RemoveChildrenWellFormed | app/src/main/java/se/dset/android/arsavings/AnchorNodeExt.kt:6-9 | removing a list of children, one after another, keeps the links consistent |
| SceneTree.WithoutFacts | app/src/main/java/se/dset/android/arsavings/AnchorNodeExt.kt:8-11 | taking a node off a child list keeps every other entry, drops one entry when the node is there, leaves the list alone when it is not, and on a duplicate-free list removes the node entirely |
| SceneTree.WithoutSplits | app/src/main/java/se/dset/android/arsavings/AnchorNodeExt.kt:8-11 | taking a node off a list that holds it cuts the list at the node's first occurrence and keeps the entries before and after it in order |
| SceneTree.RemoveChildrenFromParent | app/src/main/java/se/dset/android/arsavings/AnchorNodeExt.kt:6-9 | removing a snapshot of distinct children takes exactly those nodes off the parent's list and leaves the parent's own link alone |
| SceneTree.RemoveChildrenElsewhere | app/src/main/java/se/dset/android/arsavings/AnchorNodeExt.kt:6-9 | the removed nodes lose their parent, keep their own children, and every other node is untouched |
| SceneTree.Clear | app/src/main/java/se/dset/android/arsavings/AnchorNodeExt.kt:5-12 | clearing removes no node from the arena; its effect on the links is `ClearEffect` |
| SceneTree.ClearWellFormed | app/src/main/java/se/dset/android/arsavings/AnchorNodeExt.kt:5-12 | clearing keeps the links consistent |
| SceneTree.ClearEffect | app/src/main/java/se/dset/android/arsavings/AnchorNodeExt.kt:5-12 | after clear the node has no children and no parent, each former child is detached with its own subtree intact, the former parent lists the node no more and keeps its other children in order, and nothing else changes |
| SceneTree.ClearIdempotent | app/src/main/java/se/dset/android/arsavings/AnchorNodeExt.kt:5-12 | clearing twice is the same as clearing once |
| SceneTree.AddChild | app/src/main/java/se/dset/android/arsavings/ArSavingsModel.kt:182-183 | hanging a node under another keeps the arena's set of nodes |
| SceneTree.AddChildWellFormed | app/src/main/java/se/dset/android/arsavings/ArSavingsModel.kt:182-183 | hanging a node under another keeps the links consistent, even when it was already hanging elsewhere |
| SceneTree.AddChildEffect | app/src/main/java/se/dset/android/arsavings/ArSavingsModel.kt:250 | a newly hung node is appended as the parent's last child, leaves its old parent's list, and points to its new parent |
| Composer.Tap | app/src/main/java/se/dset/android/arsavings/ArSavingsModel.kt:304-310 | after a tap the session is ready for a rebuild, the new anchor is the next fresh identity, exactly that one node is added, and the scene's top-level nodes are unchanged |
| Composer.TapEffect | app/src/main/java/se/dset/android/arsavings/ArSavingsModel.kt:304-310 | after a tap the new anchor is a fresh, parentless, empty node; the old anchor is emptied and detached, its former children are detached, and every unrelated node is unchanged |
| Composer.TapValid | app/src/main/java/se/dset/android/arsavings/ArSavingsModel.kt:304-310 | a tap keeps the session invariant: only the current anchor may carry content among shown nodes |
| Composer.AttachNewEffect | app/src/main/java/se/dset/android/arsavings/ArSavingsModel.kt:247-250 | a fresh node is appended last under the anchor, draws what it was made for, and no other node changes |
| Composer.AttachPilesChildren | app/src/main/java/se/dset/android/arsavings/ArSavingsModel.kt:233-262 | after the loop the anchor's new children are a base and then a face node for each pile, in placement order |
| Composer.AttachPilesLooks | app/src/main/java/se/dset/android/arsavings/ArSavingsModel.kt:244-255 | the i-th pile's base node draws that pile's base and the next node draws its face |
| Composer.CashBodyChildren | app/src/main/java/se/dset/android/arsavings/ArSavingsModel.kt:224-269 | after clearing, the anchor holds exactly the piles' nodes and then the coin's node |
| Composer.RebuildCash | app/src/main/java/se/dset/android/arsavings/ArSavingsModel.kt:218-274 | a cash rebuild keeps the anchor and the scene's top-level nodes and removes no node |
| Composer.HangCash | app/src/main/java/se/dset/android/arsavings/ArSavingsModel.kt:224-272 | hanging the cash under an anchor keeps the anchor and the scene's top-level nodes and removes no node |
| Composer.HangCashChildren | app/src/main/java/se/dset/android/arsavings/ArSavingsModel.kt:224-272 | after a cash rebuild the anchor holds exactly the piles' nodes, then the coin, then the label |
| Composer.HangCashLooks | app/src/main/java/se/dset/android/arsavings/ArSavingsModel.kt:244-271 | each pile's base and face, the coin and the label are drawn as the layout says |
| Composer.HangCashDetached | app/src/main/java/se/dset/android/arsavings/ArSavingsModel.kt:224 | every node that hung under the anchor before the cash rebuild, except the label hung back, is detached |
| Composer.RebuildCashValid | app/src/main/java/se/dset/android/arsavings/ArSavingsModel.kt:218-274 | a cash rebuild keeps the session invariant |
| Composer.StaleRebuildBreaksValid | app/src/main/java/se/dset/android/arsavings/ArSavingsModel.kt:207-218 | a cash rebuild run against a shown anchor that is no longer current fills it again, so the session stops being valid |
| Composer.RebuildAsset | app/src/main/java/se/dset/android/arsavings/ArSavingsModel.kt:175-204 | an asset rebuild keeps the anchor and the scene's top-level nodes |
| Composer.RebuildAssetChildren | app/src/main/java/se/dset/android/arsavings/ArSavingsModel.kt:181-183 | after an asset rebuild the anchor holds the asset and then the label, and nothing else |
| Composer.RebuildAssetDetached | app/src/main/java/se/dset/android/arsavings/ArSavingsModel.kt:200-203 | every other node that hung under the anchor is detached by an asset rebuild |
| Composer.RebuildAssetLooks | app/src/main/java/se/dset/android/arsavings/ArSavingsModel.kt:152-183 | the asset node is drawn with the reveal's materials for these savings at the view's placement, and the label sits at the view's offset |
| Composer.RebuildAssetValid | app/src/main/java/se/dset/android/arsavings/ArSavingsModel.kt:175-204 | an asset rebuild keeps the session invariant |
| Composer.Show | app/src/main/java/se/dset/android/arsavings/ArSavingsFragment.kt:67-71 | showing leaves the tree and the anchor alone, and afterwards the anchor is among the scene's top-level nodes |
| Composer.ShowEffect | app/src/main/java/se/dset/android/arsavings/ArSavingsFragment.kt:67-71 | showing puts the anchor in the scene exactly once, adds nothing else, removes nothing, and keeps the session invariant |
| Composer.TapThenCashValid | app/src/main/java/se/dset/android/arsavings/ArSavingsModel.kt:304-310 | a tap, a cash rebuild and a show leave a valid session whose new anchor is in the scene, so every other shown node is empty |
| Composer.TapThenCashShown | app/src/main/java/se/dset/android/arsavings/ArSavingsModel.kt:218-274 | after a tap, a cash rebuild and a show, the new anchor holds two nodes per pile, the coin and the label |

## Left out

- The compound-interest projection of the total (ArSavingsModel.kt:50-63) is left out. It is floating-point arithmetic with `pow` and rounding.
- The reactive plumbing is left out: the Rx subjects, `combineLatest`, `switchMap` and thread hops. Each rebuild is modelled as one call on the current session. The view switch at ArSavingsModel.kt:278-286 only chooses which rebuild runs.
- Loading renderables, materials and text views is left out. Their results are opaque: a node's `Look` records what it draws.
- `Reveal.AssignMaterials` takes the submesh order as a parameter instead of calling `shuffled(Random(seed))`. The platform generator is not visible. The model asks only that the order is a permutation.
- `CashLayout.NumPiles` computes the pile count exactly on integer micrometres. The app computes the same quantity in `Float` and rounds it up, which can differ right at a multiple of 4000 bills.
- `Reveal.NumMeshes` computes `savings * n / price` exactly on integers. The app divides in `Float` first (`savings / price * n`), which can round one submesh differently.
- 32-bit `Int` overflow of very large totals is not modelled.
- `SceneTree.AddChildWellFormed` has no full ancestor-cycle check. It only rules out a node being its own parent. Sceneform's own cycle check is library code outside this model.
- The tree model leaves out transforms: world positions, the face's 0.001 offset above its pile, scales and rotations. A `Placement` records the asset's scale, tilt and depth in whole units, and a `Label` records its height.
- `Composer.RebuildCash` and `Composer.RebuildAsset` take the text node and the asset node as existing arena nodes. In the app these come from observables that are not part of this model.
- The presenter, the activity, the fragment's other callbacks and the currency formatting are left out.
- Composer.RebuildCash always rebuilds the session's current anchor. In the app the cash view's anchor arrives in the `combineLatest` tuple and is delivered through `observeOn(mainThread)` after it (ArSavingsModel.kt:207-218), so a cash rebuild queued before a tap can run after it against the old, still shown anchor. `Valid` and `RebuildCashValid` assume this does not happen; `StaleRebuildBreaksValid` shows that such a rebuild breaks `Valid`. `Composer.RebuildAsset` rebuilding the current anchor matches the app: the car and house views map straight after `combineLatest` with every input already on the main thread (ArSavingsModel.kt:168-205).
