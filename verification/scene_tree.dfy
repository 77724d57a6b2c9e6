/**
 The scene graph the views are built in: nodes with an ordered list of
 children and a back reference to the parent node, kept in an arena indexed
 by node identity.

 `parent` names a parent NODE only: a node hung directly under the scene
 root reports no parent (the scene's own list of top-level nodes is kept by
 the composer). `AddChild` and `RemoveChild` follow the library's rules:
 adding a node moves it away from its old parent and appends it, adding a
 node to its current parent does nothing, and removing a node that is not a
 child does nothing. `Clear` is the extension function on anchor nodes:
 remove every child over a snapshot of the child list, then leave the parent.
 */
module SceneTree {
  import opened Wrappers

  type NodeId = nat

  datatype Node = Node(parent: Option<NodeId>, children: seq<NodeId>)

  type Arena = map<NodeId, Node>

  predicate NoDuplicates(s: seq<NodeId>) {
    forall i, j :: 0 <= i < j < |s| ==> s[i] != s[j]
  }

  /** No node lists a child twice. */
  predicate ChildrenDistinct(a: Arena) {
    forall n :: n in a ==> NoDuplicates(a[n].children)
  }

  /** Every listed child exists and names the lister as its parent. */
  predicate ChildrenPointUp(a: Arena) {
    forall n, c :: n in a && c in a[n].children ==> c in a && a[c].parent == Some(n)
  }

  /** Every parent exists and lists the node among its children. */
  predicate ParentsPointDown(a: Arena) {
    forall c :: c in a && a[c].parent.Some? ==> a[c].parent.value in a && c in a[a[c].parent.value].children
  }

  predicate NotOwnParent(a: Arena) {
    forall n :: n in a ==> a[n].parent != Some(n)
  }

  /**
   Parent and child links agree in both directions, no node lists a child
   twice, and no node is its own parent.
   */
  predicate WellFormed(a: Arena) {
    ChildrenDistinct(a) && ChildrenPointUp(a) && ParentsPointDown(a) && NotOwnParent(a)
  }

  /** The list with the first occurrence of `c` taken out, as a list's `remove` does. */
  function Without(s: seq<NodeId>, c: NodeId): seq<NodeId> {
    if s == [] then []
    else if s[0] == c then s[1..]
    else [s[0]] + Without(s[1..], c)
  }

  /** `Without` keeps every other element, in order, and drops `c` from a list without duplicates. */
  lemma {:induction false} WithoutFacts(s: seq<NodeId>, c: NodeId)
    ensures c !in s ==> Without(s, c) == s
    ensures c in s ==> |Without(s, c)| == |s| - 1
    ensures forall x :: x in Without(s, c) ==> x in s
    ensures forall x :: x in s && x != c ==> x in Without(s, c)
    ensures NoDuplicates(s) ==> NoDuplicates(Without(s, c)) && c !in Without(s, c)
  {
    if s != [] {
      WithoutFacts(s[1..], c);
      if s[0] != c {
        var r := Without(s, c);
        assert r == [s[0]] + Without(s[1..], c);
        if NoDuplicates(s) {
          assert s[0] !in s[1..];
          assert forall i, j :: 0 <= i < j < |s[1..]| ==> s[1..][i] == s[i + 1] && s[1..][j] == s[j + 1];
          assert NoDuplicates(Without(s[1..], c));
          assert forall k :: 0 < k < |r| ==> r[k] == Without(s[1..], c)[k - 1];
        }
      } else if NoDuplicates(s) {
        assert forall j :: 0 < j < |s| ==> s[j] != s[0];
      }
    }
  }

  /** `c` first occurs at index `i` of `s`, and `Without` keeps the entries before and after it, in order. */
  predicate CutAt(s: seq<NodeId>, c: NodeId, i: nat) {
    i < |s| && s[i] == c && c !in s[..i] && Without(s, c) == s[..i] + s[i + 1..]
  }

  /** A first occurrence in the tail, behind a different head, is a first occurrence one place later. */
  lemma CutAtStep(s: seq<NodeId>, c: NodeId, j: nat)
    requires |s| > 0 && s[0] != c && CutAt(s[1..], c, j)
    ensures CutAt(s, c, j + 1)
  {
    var t, i := s[1..], j + 1;
    assert Without(s, c) == [s[0]] + Without(t, c);
    assert s[..i] == [s[0]] + t[..j];
    assert s[i + 1..] == t[j + 1..];
  }

  /** `Without` cuts the list at the first occurrence of `c` and keeps the entries on either side in order. */
  lemma {:induction false} WithoutSplits(s: seq<NodeId>, c: NodeId)
    requires c in s
    ensures exists i: nat :: CutAt(s, c, i)
  {
    if s[0] == c {
      assert s[..0] + s[0 + 1..] == s[1..];
      assert CutAt(s, c, 0);
    } else {
      assert s == [s[0]] + s[1..];
      WithoutSplits(s[1..], c);
      var j: nat :| CutAt(s[1..], c, j);
      CutAtStep(s, c, j);
    }
  }

  /**
   `p.removeChild(c)`: when `c` is a child of `p`, it leaves `p`'s child list
   and loses its parent; otherwise nothing changes.
   */
  function RemoveChild(a: Arena, p: NodeId, c: NodeId): (r: Arena)
    requires p in a
    ensures r.Keys == a.Keys
    ensures c !in a[p].children ==> r == a
  {
    if c !in a[p].children || c !in a || c == p then a
    else a[p := a[p].(children := Without(a[p].children, c))][c := a[c].(parent := None)]
  }

  /** Removing a child of `p` changes `p`'s child list and the child's parent, and nothing else. */
  lemma RemoveChildEffect(a: Arena, p: NodeId, c: NodeId)
    requires p in a && c in a && c != p && c in a[p].children
    ensures RemoveChild(a, p, c)[p] == a[p].(children := Without(a[p].children, c))
    ensures RemoveChild(a, p, c)[c] == a[c].(parent := None)
    ensures forall m :: m in a && m != p && m != c ==> RemoveChild(a, p, c)[m] == a[m]
  {
  }

  lemma RemoveChildDistinct(a: Arena, p: NodeId, c: NodeId)
    requires WellFormed(a) && p in a && c in a[p].children
    ensures ChildrenDistinct(RemoveChild(a, p, c))
  {
    var r := RemoveChild(a, p, c);
    assert a[c].parent == Some(p);
    RemoveChildEffect(a, p, c);
    WithoutFacts(a[p].children, c);
    forall n | n in r
      ensures NoDuplicates(r[n].children)
    {
      if n != p && n != c {
        assert r[n] == a[n];
      }
    }
  }

  lemma RemoveChildPointUp(a: Arena, p: NodeId, c: NodeId)
    requires WellFormed(a) && p in a && c in a[p].children
    ensures ChildrenPointUp(RemoveChild(a, p, c))
  {
    var r := RemoveChild(a, p, c);
    assert a[c].parent == Some(p);
    RemoveChildEffect(a, p, c);
    WithoutFacts(a[p].children, c);
    forall n, x | n in r && x in r[n].children
      ensures x in r && r[x].parent == Some(n)
    {
      if n == p {
        assert x in a[p].children && x != c;
      } else {
        assert r[n].children == a[n].children;
      }
    }
  }

  lemma RemoveChildPointDown(a: Arena, p: NodeId, c: NodeId)
    requires WellFormed(a) && p in a && c in a[p].children
    ensures ParentsPointDown(RemoveChild(a, p, c))
  {
    var r := RemoveChild(a, p, c);
    assert a[c].parent == Some(p);
    RemoveChildEffect(a, p, c);
    WithoutFacts(a[p].children, c);
    forall x | x in r && r[x].parent.Some?
      ensures r[x].parent.value in r && x in r[r[x].parent.value].children
    {
      assert x != c;
      assert r[x].parent == a[x].parent;
    }
  }

  /** Removing a child keeps the arena well formed. */
  lemma RemoveChildWellFormed(a: Arena, p: NodeId, c: NodeId)
    requires WellFormed(a) && p in a
    ensures WellFormed(RemoveChild(a, p, c))
  {
    if c in a[p].children {
      RemoveChildDistinct(a, p, c);
      RemoveChildPointUp(a, p, c);
      RemoveChildPointDown(a, p, c);
    }
  }

  /** The loop of `clear`: remove each node of the snapshot `cs`, in order, from `p`. */
  function RemoveChildren(a: Arena, p: NodeId, cs: seq<NodeId>): (r: Arena)
    requires p in a
    ensures r.Keys == a.Keys
    decreases |cs|
  {
    if cs == [] then a else RemoveChildren(RemoveChild(a, p, cs[0]), p, cs[1..])
  }

  lemma {:induction false} RemoveChildrenWellFormed(a: Arena, p: NodeId, cs: seq<NodeId>)
    requires WellFormed(a) && p in a
    ensures WellFormed(RemoveChildren(a, p, cs))
    decreases |cs|
  {
    if cs != [] {
      RemoveChildWellFormed(a, p, cs[0]);
      RemoveChildrenWellFormed(RemoveChild(a, p, cs[0]), p, cs[1..]);
    }
  }

  /** Removing a snapshot of distinct children of `p` takes exactly those nodes off `p`'s list. */
  lemma {:induction false} RemoveChildrenFromParent(a: Arena, p: NodeId, cs: seq<NodeId>)
    requires p in a && NoDuplicates(a[p].children)
    requires NoDuplicates(cs)
    requires forall c :: c in cs ==> c in a && c != p && c in a[p].children
    ensures forall x :: x in RemoveChildren(a, p, cs)[p].children <==> x in a[p].children && x !in cs
    ensures RemoveChildren(a, p, cs)[p].parent == a[p].parent
    decreases |cs|
  {
    if cs != [] {
      var c, rest := cs[0], cs[1..];
      RemoveChildEffect(a, p, c);
      WithoutFacts(a[p].children, c);
      assert forall i :: 0 <= i < |rest| ==> rest[i] == cs[i + 1];
      assert c !in rest;
      assert forall x :: x in cs <==> x == c || x in rest;
      RemoveChildrenFromParent(RemoveChild(a, p, c), p, rest);
    }
  }

  /** The removed nodes lose their parent; every other node other than `p` is untouched. */
  lemma {:induction false} RemoveChildrenElsewhere(a: Arena, p: NodeId, cs: seq<NodeId>)
    requires p in a
    requires NoDuplicates(cs)
    requires forall c :: c in cs ==> c in a && c != p && c in a[p].children
    ensures forall m :: m in a && m != p ==> RemoveChildren(a, p, cs)[m].children == a[m].children
    ensures forall m :: m in a && m != p ==>
      RemoveChildren(a, p, cs)[m].parent == (if m in cs then None else a[m].parent)
    decreases |cs|
  {
    if cs != [] {
      var c, rest := cs[0], cs[1..];
      RemoveChildEffect(a, p, c);
      WithoutFacts(a[p].children, c);
      assert forall i :: 0 <= i < |rest| ==> rest[i] == cs[i + 1];
      assert c !in rest;
      RemoveChildrenElsewhere(RemoveChild(a, p, c), p, rest);
    }
  }

  /** `n.clear()`: detach every child of `n`, then take `n` off its parent node, if any. */
  function Clear(a: Arena, n: NodeId): (r: Arena)
    requires n in a
    ensures r.Keys == a.Keys
  {
    var a1 := RemoveChildren(a, n, a[n].children);
    match a1[n].parent
    case None => a1
    case Some(q) => if q in a1 then RemoveChild(a1, q, n) else a1
  }

  /** Clearing keeps the arena well formed. */
  lemma ClearWellFormed(a: Arena, n: NodeId)
    requires WellFormed(a) && n in a
    ensures WellFormed(Clear(a, n))
  {
    var a1 := RemoveChildren(a, n, a[n].children);
    RemoveChildrenWellFormed(a, n, a[n].children);
    if a1[n].parent.Some? && a1[n].parent.value in a1 {
      RemoveChildWellFormed(a1, a1[n].parent.value, n);
    }
  }

  /**
   The element at a valid index is a member. `NothingLeft` calls it so that
   the index check is made here, not in its own impossible branch.
   */
  lemma Member(s: seq<NodeId>, i: nat)
    requires i < |s|
    ensures s[i] in s
  {
  }

  /** A list with no members is empty. */
  lemma NothingLeft(s: seq<NodeId>)
    requires forall x :: x !in s
    ensures s == []
  {
    if s != [] {
      Member(s, 0);
      assert false;
    }
  }

  /** The links around `n` that `clear` relies on. */
  predicate LinkedAround(a: Arena, n: NodeId) {
    && n in a
    && NoDuplicates(a[n].children)
    && (forall c :: c in a[n].children ==> c in a && c != n)
    && Linked(a, n)
  }

  /** A node's parent exists, is another node, and lists it among its children. */
  lemma ParentInArena(a: Arena, n: NodeId, c: NodeId)
    requires WellFormed(a) && c in a && a[c].parent == Some(n)
    ensures n in a && c != n && c in a[n].children
  {
  }

  lemma WellFormedLinked(a: Arena, n: NodeId)
    requires WellFormed(a) && n in a
    ensures LinkedAround(a, n)
  {
    assert forall c :: c in a[n].children ==> c in a && a[c].parent == Some(n);
  }

  lemma {:induction false} ClearEffectLocal(a: Arena, n: NodeId)
    requires LinkedAround(a, n)
    ensures Clear(a, n)[n].children == []
    ensures Clear(a, n)[n].parent == None
    ensures forall m :: m in a && m != n ==>
      Clear(a, n)[m].parent == (if m in a[n].children then None else a[m].parent)
    ensures forall m :: m in a && m != n ==>
      Clear(a, n)[m].children == (if a[n].parent == Some(m) then Without(a[m].children, n) else a[m].children)
  {
    var cs := a[n].children;
    var a1 := RemoveChildren(a, n, cs);
    RemoveChildrenFromParent(a, n, cs);
    RemoveChildrenElsewhere(a, n, cs);
    NothingLeft(a1[n].children);
    if a[n].parent.Some? {
      var q := a[n].parent.value;
      RemoveChildEffect(a1, q, n);
    }
  }

  /**
   What `clear` does, node by node: the cleared node ends with no children
   and no parent, its former children lose their parent, its former parent
   loses it from its child list, and every other link is kept.
   */
  lemma ClearEffect(a: Arena, n: NodeId)
    requires WellFormed(a) && n in a
    ensures Clear(a, n)[n].children == []
    ensures Clear(a, n)[n].parent == None
    ensures forall m :: m in a && m != n ==>
      Clear(a, n)[m].parent == (if m in a[n].children then None else a[m].parent)
    ensures forall m :: m in a && m != n ==>
      Clear(a, n)[m].children == (if a[n].parent == Some(m) then Without(a[m].children, n) else a[m].children)
  {
    WellFormedLinked(a, n);
    ClearEffectLocal(a, n);
  }

  /** Clearing twice is the same as clearing once. */
  lemma ClearIdempotent(a: Arena, n: NodeId)
    requires WellFormed(a) && n in a
    ensures Clear(Clear(a, n), n) == Clear(a, n)
  {
    WellFormedLinked(a, n);
    ClearEffectLocal(a, n);
  }

  /** A freshly made node: no parent, no children. */
  function NewNode(a: Arena, k: NodeId): (r: Arena)
    requires k !in a
    ensures r.Keys == a.Keys + {k}
  {
    a[k := Node(None, [])]
  }

  lemma NewNodeWellFormed(a: Arena, k: NodeId)
    requires WellFormed(a) && k !in a
    ensures WellFormed(NewNode(a, k))
  {
    var r := NewNode(a, k);
    forall n, x | n in r && x in r[n].children
      ensures x in r && r[x].parent == Some(n)
    {
      assert x in a[n].children;
    }
  }

  /** Take `c` off its parent node, if it has one. */
  function Detach(a: Arena, c: NodeId): (r: Arena)
    requires c in a
    ensures r.Keys == a.Keys
  {
    match a[c].parent
    case None => a
    case Some(q) => if q in a then RemoveChild(a, q, c) else a
  }

  lemma DetachWellFormed(a: Arena, c: NodeId)
    requires WellFormed(a) && c in a
    ensures WellFormed(Detach(a, c))
  {
    if a[c].parent.Some? {
      RemoveChildWellFormed(a, a[c].parent.value, c);
    }
  }

  /** `c` hangs under its parent, if it has one, and is not its own parent. */
  predicate Linked(a: Arena, c: NodeId) {
    c in a && (a[c].parent.Some? ==>
      var q := a[c].parent.value; q in a && q != c && c in a[q].children)
  }

  /** Detaching leaves `c` without a parent, takes it off its old parent's list, and changes nothing else. */
  lemma DetachEffect(a: Arena, c: NodeId)
    requires Linked(a, c)
    ensures Detach(a, c).Keys == a.Keys
    ensures Detach(a, c)[c] == a[c].(parent := None)
    ensures forall m :: m in a && m != c ==>
      Detach(a, c)[m] == (if a[c].parent == Some(m) then a[m].(children := Without(a[m].children, c)) else a[m])
  {
    if a[c].parent.Some? {
      RemoveChildEffect(a, a[c].parent.value, c);
    }
  }

  /** Append the parentless node `c` to `p`'s children. */
  function Adopt(a: Arena, p: NodeId, c: NodeId): (r: Arena)
    requires p in a && c in a && c != p
    ensures r.Keys == a.Keys
  {
    a[p := a[p].(children := a[p].children + [c])][c := a[c].(parent := Some(p))]
  }

  lemma AppendDistinct(s: seq<NodeId>, c: NodeId)
    requires NoDuplicates(s) && c !in s
    ensures NoDuplicates(s + [c])
  {
    var t := s + [c];
    assert forall i :: 0 <= i < |s| ==> t[i] == s[i];
  }

  lemma AdoptWellFormed(a: Arena, p: NodeId, c: NodeId)
    requires WellFormed(a) && p in a && c in a && c != p
    requires a[c].parent == None
    ensures WellFormed(Adopt(a, p, c))
  {
    var r := Adopt(a, p, c);
    assert c !in a[p].children;
    AppendDistinct(a[p].children, c);
    assert ChildrenDistinct(r) by {
      forall n | n in r
        ensures NoDuplicates(r[n].children)
      {
        if n != p {
          assert r[n].children == a[n].children;
        }
      }
    }
    assert ChildrenPointUp(r) by {
      forall n, x | n in r && x in r[n].children
        ensures x in r && r[x].parent == Some(n)
      {
        if x != c {
          assert x in a[n].children;
        }
      }
    }
    assert ParentsPointDown(r) by {
      forall x | x in r && r[x].parent.Some?
        ensures r[x].parent.value in r && x in r[r[x].parent.value].children
      {
        if x != c {
          assert x in a[a[x].parent.value].children;
        }
      }
    }
  }

  /**
   `p.addChild(c)`: a child already under `p` stays where it is; otherwise
   `c` leaves its old parent node and is appended to `p`'s children. The
   library refuses to make a node its own child.
   */
  function AddChild(a: Arena, p: NodeId, c: NodeId): (r: Arena)
    requires p in a && c in a && c != p
    ensures r.Keys == a.Keys
  {
    if a[c].parent == Some(p) then a else Adopt(Detach(a, c), p, c)
  }

  lemma AddChildWellFormed(a: Arena, p: NodeId, c: NodeId)
    requires WellFormed(a) && p in a && c in a && c != p
    ensures WellFormed(AddChild(a, p, c))
  {
    if a[c].parent != Some(p) {
      DetachWellFormed(a, c);
      assert Detach(a, c)[c].parent == None by {
        WellFormedLinked(a, c);
        DetachEffect(a, c);
      }
      AdoptWellFormed(Detach(a, c), p, c);
    }
  }

  /**
   After `p.addChild(c)`, `c` hangs under `p` as its last child (or where it
   already was), its old parent no longer lists it, and nothing else changes.
   */
  lemma AddChildEffect(a: Arena, p: NodeId, c: NodeId)
    requires p in a && Linked(a, c) && c != p
    requires c in a[p].children <==> a[c].parent == Some(p)
    ensures AddChild(a, p, c)[c] == a[c].(parent := Some(p))
    ensures AddChild(a, p, c)[p].children ==
      (if a[c].parent == Some(p) then a[p].children else a[p].children + [c])
    ensures AddChild(a, p, c)[p].parent == a[p].parent
    ensures forall m :: m in a && m != p && m != c ==>
      AddChild(a, p, c)[m] == (if a[c].parent == Some(m) then a[m].(children := Without(a[m].children, c)) else a[m])
  {
    DetachEffect(a, c);
  }
}
