/**
 The car and house views: an asset model made of `n` submeshes is revealed
 in proportion to how much of its price has been saved. The submeshes are
 visited in a fixed shuffled order; the first `NumMeshes` of that order keep
 their own material and the rest are made transparent.

 The shuffle comes from a seeded platform random generator, so the model
 takes the shuffled order as a parameter and asks only that it is a
 permutation of 0 .. n - 1.
 */
module Reveal {

  const CAR_PRICE := 300_000
  const HOME_PRICE := 1_000_000

  /** What a submesh is drawn with: its own material from the model file, or the transparent one. */
  datatype Material = Own(submesh: nat) | Transparent

  function Min(a: nat, b: nat): nat {
    if a < b then a else b
  }

  /** `order` lists every submesh index below `n` exactly once. */
  predicate IsPermutation(order: seq<nat>, n: nat) {
    && |order| == n
    && (forall i :: 0 <= i < n ==> order[i] < n)
    && (forall i, j :: 0 <= i < j < n ==> order[i] != order[j])
  }

  /** How many submeshes are shown with their own material: the saved fraction of the price, in submeshes, rounded down. */
  function NumMeshes(savings: nat, price: nat, n: nat): (k: nat)
    requires price > 0
    ensures k <= n
  {
    Min(n, savings * n / price)
  }

  /** The submeshes shown with their own material: the first `k` of the shuffled order. */
  function Revealed(order: seq<nat>, k: nat): set<nat> {
    set i | 0 <= i < k && i < |order| :: order[i]
  }

  /** The material of each submesh, indexed by submesh: its own when revealed, transparent otherwise. */
  function Materials(savings: nat, price: nat, order: seq<nat>): (m: seq<Material>)
    requires price > 0
    ensures |m| == |order|
    ensures forall s :: 0 <= s < |m| ==> m[s] == Own(s) || m[s] == Transparent
  {
    var revealed := Revealed(order, NumMeshes(savings, price, |order|));
    seq(|order|, s requires 0 <= s => if s in revealed then Own(s) else Transparent)
  }

  // ---------------------------------------------------------------------
  // The number of revealed submeshes
  // ---------------------------------------------------------------------

  lemma DivBelow(a: nat, b: nat)
    requires b > 0
    ensures (a / b) * b <= a < (a / b) * b + b
  {
  }

  lemma {:induction false} DivMonotone(a: nat, a': nat, b: nat)
    requires b > 0 && a <= a'
    ensures a / b <= a' / b
  {
    var q, q' := a / b, a' / b;
    DivBelow(a, b);
    DivBelow(a', b);
    if q' < q {
      MulMonotone(q' + 1, q, b);
      assert false;
    }
  }

  lemma MulMonotone(a: nat, a': nat, n: nat)
    requires a <= a'
    ensures a * n <= a' * n
  {
  }

  lemma MulDivCancel(n: nat, price: nat)
    requires price > 0
    ensures (price * n) / price == n
  {
    DivBelow(price * n, price);
    var q := (price * n) / price;
    if q < n {
      MulMonotone(q + 1, n, price);
    }
  }

  /** Below the cap, `NumMeshes` is the floor of savings * n / price. */
  lemma NumMeshesIsFloor(savings: nat, price: nat, n: nat)
    requires price > 0
    ensures var k := NumMeshes(savings, price, n);
      k < n ==> k * price <= savings * n < (k + 1) * price
  {
    var q := savings * n / price;
    DivBelow(savings * n, price);
    assert (q + 1) * price == q * price + price;
  }

  /** At the cap, the savings cover the whole price; once the price is saved, every submesh is revealed. */
  lemma NumMeshesFull(savings: nat, price: nat, n: nat)
    requires price > 0
    ensures NumMeshes(savings, price, n) == n ==> n * price <= savings * n
    ensures savings >= price ==> NumMeshes(savings, price, n) == n
  {
    var q := savings * n / price;
    DivBelow(savings * n, price);
    if n <= q {
      MulMonotone(n, q, price);
    }
    if savings >= price {
      MulMonotone(price, savings, n);
      DivMonotone(price * n, savings * n, price);
      MulDivCancel(n, price);
    }
  }

  /** More savings never reveal fewer submeshes. */
  lemma NumMeshesMonotone(savings: nat, savings': nat, price: nat, n: nat)
    requires price > 0 && savings <= savings'
    ensures NumMeshes(savings, price, n) <= NumMeshes(savings', price, n)
  {
    MulMonotone(savings, savings', n);
    DivMonotone(savings * n, savings' * n, price);
  }

  // ---------------------------------------------------------------------
  // The shuffled order
  // ---------------------------------------------------------------------

  /** The submesh indices 0 .. n - 1. */
  function Range(n: nat): set<nat> {
    if n == 0 then {} else Range(n - 1) + {n - 1}
  }

  lemma {:induction false} RangeSize(n: nat)
    ensures forall s: nat :: s in Range(n) <==> s < n
    ensures |Range(n)| == n
  {
    if n > 0 {
      RangeSize(n - 1);
      assert n - 1 !in Range(n - 1);
    }
  }

  function Elements(order: seq<nat>): set<nat> {
    set i | 0 <= i < |order| :: order[i]
  }

  lemma {:induction false} DistinctElements(order: seq<nat>)
    requires forall i, j :: 0 <= i < j < |order| ==> order[i] != order[j]
    ensures |Elements(order)| == |order|
  {
    if |order| > 0 {
      var front := order[..|order| - 1];
      DistinctElements(front);
      assert Elements(order) == Elements(front) + {order[|order| - 1]};
      assert order[|order| - 1] !in Elements(front);
    }
  }

  lemma {:induction false} SubsetSize(a: set<nat>, b: set<nat>)
    requires a <= b
    ensures |a| <= |b|
    decreases a
  {
    if a != {} {
      var x :| x in a;
      SubsetSize(a - {x}, b - {x});
    }
  }

  lemma SubsetOfEqualSize(a: set<nat>, b: set<nat>)
    requires a <= b && |a| == |b|
    ensures a == b
  {
    if a != b {
      var x :| x in b && x !in a;
      SubsetSize(a, b - {x});
      assert false;
    }
  }

  /** Every submesh appears in the shuffled order, exactly once. */
  lemma EachSubmeshOnce(order: seq<nat>, n: nat, s: nat)
    requires IsPermutation(order, n)
    requires s < n
    ensures exists i :: 0 <= i < n && order[i] == s
    ensures forall i, j :: 0 <= i < n && 0 <= j < n && order[i] == s && order[j] == s ==> i == j
  {
    DistinctElements(order);
    RangeSize(n);
    SubsetOfEqualSize(Elements(order), Range(n));
    assert s in Elements(order);
  }

  /** Exactly `k` submeshes are revealed, and they are the first `k` of the order. */
  lemma RevealedCount(order: seq<nat>, n: nat, k: nat)
    requires IsPermutation(order, n) && k <= n
    ensures |Revealed(order, k)| == k
  {
    DistinctElements(order[..k]);
    assert Revealed(order, k) == Elements(order[..k]);
  }

  /** For a fixed order, the revealed set only grows as savings grow. */
  lemma RevealedMonotone(order: seq<nat>, savings: nat, savings': nat, price: nat)
    requires price > 0 && savings <= savings'
    ensures Revealed(order, NumMeshes(savings, price, |order|)) <= Revealed(order, NumMeshes(savings', price, |order|))
  {
    NumMeshesMonotone(savings, savings', price, |order|);
  }

  // ---------------------------------------------------------------------
  // Assigning the materials
  // ---------------------------------------------------------------------

  /**
   Walks the shuffled order once and sets one material per position: the
   submesh at position i keeps its own material when i < numMeshes and
   becomes transparent otherwise.
   */
  method AssignMaterials(order: seq<nat>, numMeshes: nat) returns (materials: seq<Material>)
    requires IsPermutation(order, |order|)
    ensures |materials| == |order|
    ensures forall i :: 0 <= i < |order| ==>
      materials[order[i]] == (if i < numMeshes then Own(order[i]) else Transparent)
  {
    var n := |order|;
    materials := seq(n, s requires 0 <= s => Own(s));
    var i := 0;
    while i < n
      invariant 0 <= i <= n && |materials| == n
      invariant forall j :: 0 <= j < i ==>
        materials[order[j]] == (if j < numMeshes then Own(order[j]) else Transparent)
    {
      materials := materials[order[i] := if i < numMeshes then Own(order[i]) else Transparent];
      i := i + 1;
    }
  }

  /**
   The reveal for one savings total: each submesh keeps its own material
   exactly when it is among the first `NumMeshes` of the order, and is
   transparent otherwise.
   */
  method RevealAsset(savings: nat, price: nat, order: seq<nat>) returns (materials: seq<Material>)
    requires price > 0
    requires IsPermutation(order, |order|)
    ensures materials == Materials(savings, price, order)
  {
    var n := |order|;
    var numMeshes := Min(n, savings * n / price);
    materials := AssignMaterials(order, numMeshes);
    forall s | 0 <= s < n
      ensures materials[s] == (if s in Revealed(order, numMeshes) then Own(s) else Transparent)
    {
      EachSubmeshOnce(order, n, s);
      var i :| 0 <= i < n && order[i] == s;
      if s in Revealed(order, numMeshes) {
        var j :| 0 <= j < numMeshes && j < n && order[j] == s;
        assert i == j;
      }
    }
  }
}
