/**
 Revocation over the children index, in copying and in-place form, and its relation to the naive
 revocation that walks parents on fuel.
 */
module Revocation {
  import opened Types
  import opened SortedVec
  import opened Capabilities
  import opened CapTable
  import opened Descent
  import opened ChildIndex

  /** The table with exactly the given ids revoked. */
  ghost function Mark(t: Table, dead: iset<CapId>): Table {
    t.(caps := seq(|t.caps|, i requires 0 <= i < |t.caps| =>
      if t.caps[i].0 in dead then (t.caps[i].0, t.caps[i].1.Revoked()) else t.caps[i]))
  }

  ghost function Reachable(t: Table, root: CapId): iset<CapId> {
    iset id: CapId | Reach(t.index, root, id)
  }

  /** What the index-driven revocation is meant to do. */
  ghost function RevokeReachable(t: Table, root: CapId): Table {
    Mark(t, Reachable(t, root))
  }

  // ---- Fast against naive ----

  lemma {:induction false} ParentsAreSteps(t: Table, root: CapId, id: CapId, n: nat)
    requires IndexExact(t) && Up(t, id, n) == Some(root)
    ensures ReachIn(t.index, root, id, n)
    decreases n
  {
    if n > 0 {
      UpStep(t, id, n);
      var p := t.ParentOf(id).value;
      ParentsAreSteps(t, root, p, n - 1);
      assert id in ChildrenOf(t.index, p);
    }
  }

  lemma {:induction false} StepsAreParents(t: Table, root: CapId, id: CapId, n: nat)
    requires IndexExact(t) && ReachIn(t.index, root, id, n)
    ensures Up(t, id, n) == Some(root)
    decreases n
  {
    if n > 0 {
      var p := LastStep(t.index, root, id, n);
      StepsAreParents(t, root, p, n - 1);
      UpStep(t, id, n);
    }
  }

  lemma ReachIsDescent(t: Table, root: CapId, id: CapId)
    requires IndexExact(t)
    ensures Reach(t.index, root, id) <==> InSubtree(t, id, root)
  {
    if Reach(t.index, root, id) {
      var n: nat :| ReachIn(t.index, root, id, n);
      StepsAreParents(t, root, id, n);
      assert n > 0 ==> Descends(t, id, root);
    }
    if Descends(t, id, root) {
      var n: nat :| n > 0 && Up(t, id, n) == Some(root);
      ParentsAreSteps(t, root, id, n);
    }
    ReachRoot(t.index, root);
  }

  /**
   On any table with an exact index, the fast revocation is the naive one exactly when no valid
   capability hangs further below the root than its own id.
   */
  lemma FastEqualsNaiveExactly(t: Table, root: CapId)
    requires Sorted(t.caps) && IndexExact(t)
    ensures RevokeReachable(t, root) == t.RevokeTransitive(root) <==> !PastFuel(t, root)
  {
    var fast, naive := RevokeReachable(t, root), t.RevokeTransitive(root);
    forall i | 0 <= i < |t.caps|
      ensures var id := t.caps[i].0;
        fast.caps[i] == naive.caps[i] <==>
          (t.IsValid(id) && id != root && Descends(t, id, root) ==> DescendsWithin(t, id, root, id))
    {
      var id := t.caps[i].0;
      GetAt(t.caps, i);
      ReachIsDescent(t, root, id);
      FuelExact(t, id, root, id);
    }
    if !PastFuel(t, root) {
      assert forall i :: 0 <= i < |t.caps| ==> fast.caps[i] == naive.caps[i];
      assert fast.caps == naive.caps;
    }
    if fast == naive {
      forall id: CapId | t.IsValid(id) && id != root && Descends(t, id, root)
        ensures DescendsWithin(t, id, root, id)
      {
        assert fast.caps[LowerBound(t.caps, id)] == naive.caps[LowerBound(t.caps, id)];
      }
    }
  }

  /** In a table with parents before children they agree for every id, present or not. */
  lemma FastEqualsNaive(t: Table, root: CapId)
    requires IndexExact(t) && ParentLt(t)
    ensures RevokeReachable(t, root) == t.RevokeTransitive(root)
  {
    forall i | 0 <= i < |t.caps|
      ensures t.caps[i].0 in Reachable(t, root) <==> t.InRevokeSet(t.caps[i].0, root)
    {
      ReachIsDescent(t, root, t.caps[i].0);
      FuelIsAdequate(t, t.caps[i].0, root);
    }
  }

  // ---- What revocation keeps ----

  lemma GetMarked(t: Table, dead: iset<CapId>, q: CapId)
    requires Sorted(t.caps)
    ensures Sorted(Mark(t, dead).caps)
    ensures Mark(t, dead).Lookup(q)
      == match t.Lookup(q)
         case Some(cap) => Some(if q in dead then cap.Revoked() else cap)
         case None => None
  {
    SameKeys(t.caps, Mark(t, dead).caps, q);
  }

  ghost function Listed(ids: seq<CapId>): iset<CapId> {
    iset id: CapId | id in ids
  }

  /** Revoking one id where it stands, if it is there. */
  function RevokeOne(t: Table, id: CapId): Table {
    var p := LowerBound(t.caps, id);
    if Has(t.caps, id) then t.(caps := t.caps[p := (t.caps[p].0, t.caps[p].1.Revoked())]) else t
  }

  /** Revoking one more id in place extends the marked set by that id. */
  lemma MarkOneMore(t: Table, ids: seq<CapId>, id: CapId)
    requires Sorted(t.caps)
    ensures Mark(t, Listed(ids + [id])) == RevokeOne(Mark(t, Listed(ids)), id)
  {
  }

  lemma RevokeKeepsCoherent(t: Table, root: CapId)
    requires Coherent(t)
    ensures Coherent(RevokeReachable(t, root))
    ensures Extends(t, RevokeReachable(t, root))
    ensures forall id: CapId :: RevokeReachable(t, root).Present(id) <==> t.Present(id)
    ensures forall id: CapId :: RevokeReachable(t, root).ParentOf(id) == t.ParentOf(id)
    ensures forall id: CapId ::
      RevokeReachable(t, root).IsValid(id) <==> t.IsValid(id) && !Reach(t.index, root, id)
  {
    var t' := RevokeReachable(t, root);
    forall q: CapId
      ensures t'.Present(q) <==> t.Present(q)
      ensures t.Present(q) ==> SameButRevoked(t.Lookup(q).value, t'.Lookup(q).value)
      ensures t'.ParentOf(q) == t.ParentOf(q)
      ensures t'.IsValid(q) <==> t.IsValid(q) && !Reach(t.index, root, q)
    {
      GetMarked(t, Reachable(t, root), q);
    }
    GetMarked(t, Reachable(t, root), 0);
    RevokeKeepsParents(t, t', root);
  }

  lemma RevokeKeepsParents(t: Table, t': Table, root: CapId)
    requires KeysMatch(t) && ParentsPresent(t) && ValidParents(t) && IndexExact(t)
    requires t'.index == t.index && Extends(t, t')
    requires forall q: CapId :: t'.Present(q) <==> t.Present(q)
    requires forall q: CapId :: t'.ParentOf(q) == t.ParentOf(q)
    requires forall q: CapId :: t'.IsValid(q) <==> t.IsValid(q) && !Reach(t.index, root, q)
    ensures KeysMatch(t') && ParentsPresent(t') && ValidParents(t') && IndexExact(t')
  {
    forall q: CapId | t'.ParentOf(q).Some?
      ensures t'.Present(t'.ParentOf(q).value)
      ensures t'.IsValid(q) ==> t'.IsValid(t'.ParentOf(q).value)
    {
      var p := t.ParentOf(q).value;
      assert t.Present(p);
      if t'.IsValid(q) && Reach(t.index, root, p) {
        assert q in ChildrenOf(t.index, p);
        ReachChild(t.index, root, p, q);
      }
    }
    forall p: CapId, c: CapId
      ensures c in ChildrenOf(t'.index, p) <==> t'.ParentOf(c) == Some(p)
    {
      assert c in ChildrenOf(t.index, p) <==> t.ParentOf(c) == Some(p);
    }
  }

  lemma GetNaivelyRevoked(t: Table, root: CapId, q: CapId)
    requires Sorted(t.caps)
    ensures t.RevokeTransitive(root).Lookup(q)
      == match t.Lookup(q)
         case Some(cap) => Some(if t.InRevokeSet(q, root) then cap.Revoked() else cap)
         case None => None
  {
    var dead := iset id: CapId | t.InRevokeSet(id, root);
    assert t.RevokeTransitive(root) == Mark(t, dead);
    GetMarked(t, dead, q);
  }

  lemma ValidUnderRevoked(t: Table, t': Table, id: CapId, root: CapId)
    requires ParentsPresent(t) && Extends(t, t') && t.Present(id) && Descends(t, id, root)
    requires t'.IsValid(id) && !t'.IsValid(root)
    ensures !ValidParents(t')
  {
    var n: nat :| n > 0 && Up(t, id, n) == Some(root);
    ChainsAreStable(t, t', id, n);
    if ValidParents(t') {
      ValidChain(t', id, n);
      assert false;
    }
  }

  lemma NaiveExtends(t: Table, root: CapId)
    requires Sorted(t.caps)
    ensures Extends(t, t.RevokeTransitive(root))
  {
    forall q: CapId | t.Present(q)
      ensures t.RevokeTransitive(root).Present(q)
      ensures SameButRevoked(t.Lookup(q).value, t.RevokeTransitive(root).Lookup(q).value)
    {
      GetNaivelyRevoked(t, root, q);
    }
  }

  /** A capability the naive walk misses stays valid under a revoked ancestor. */
  lemma MissedBreaksValidity(t: Table, root: CapId)
    requires Coherent(t) && PastFuel(t, root)
    ensures !ValidParents(t.RevokeTransitive(root))
  {
    var id: CapId :| t.IsValid(id) && id != root && Descends(t, id, root) && !DescendsWithin(t, id, root, id);
    FuelExact(t, id, root, id);
    NaiveExtends(t, root);
    GetNaivelyRevoked(t, root, id);
    GetNaivelyRevoked(t, root, root);
    ValidUnderRevoked(t, t.RevokeTransitive(root), id, root);
  }

  /** So the naive revocation keeps a coherent table coherent exactly when it agrees with the fast one. */
  lemma NaiveKeepsCoherentExactly(t: Table, root: CapId)
    requires Coherent(t)
    ensures Coherent(t.RevokeTransitive(root)) <==> !PastFuel(t, root)
  {
    if PastFuel(t, root) {
      MissedBreaksValidity(t, root);
    } else {
      FastEqualsNaiveExactly(t, root);
      RevokeKeepsCoherent(t, root);
    }
  }

  ghost function HighRootTable(root: Capability, child: Capability): Table {
    Table([(0, child), (100, root)], 0, [(100, [0])])
  }

  lemma HighRootLookups(root: Capability, child: Capability, q: CapId)
    ensures Layout(HighRootTable(root, child))
    ensures HighRootTable(root, child).Lookup(q)
         == if q == 0 then Some(child) else if q == 100 then Some(root) else None
    ensures ChildrenOf(HighRootTable(root, child).index, q) == if q == 100 then [0] else []
  {
    var t := HighRootTable(root, child);
    GetAt(t.caps, 0);
    GetAt(t.caps, 1);
    GetAt(t.index, 0);
    var p := LowerBound(t.caps, q);
    assert p < 2 ==> t.caps[p].0 == 0 || t.caps[p].0 == 100;
    var i := LowerBound(t.index, q);
    assert i < 1 ==> t.index[i].0 == 100;
  }

  lemma HighRootCoherent(root: Capability, child: Capability)
    requires root.id == 100 && root.parent == None && root.valid
    requires child.id == 0 && child.parent == Some(100) && child.valid
    ensures Coherent(HighRootTable(root, child))
  {
    var t := HighRootTable(root, child);
    forall q: CapId
      ensures t.Lookup(q) == if q == 0 then Some(child) else if q == 100 then Some(root) else None
      ensures ChildrenOf(t.index, q) == if q == 100 then [0] else []
    {
      HighRootLookups(root, child, q);
    }
    assert Layout(t) by { HighRootLookups(root, child, 0); }
  }

  /** A root bootstrapped at 100 whose first minted child gets id 0: the naive walk has no fuel to see it. */
  lemma NaiveMissesChildOfHighRoot(root: Capability, child: Capability)
    requires root.id == 100 && root.parent == None && root.valid
    requires child.id == 0 && child.parent == Some(100) && child.valid
    ensures var t := HighRootTable(root, child);
      Coherent(t) && t.RevokeTransitive(100).IsValid(0) && !RevokeReachable(t, 100).IsValid(0)
  {
    var t := HighRootTable(root, child);
    HighRootCoherent(root, child);
    HighRootLookups(root, child, 0);
    GetNaivelyRevoked(t, 100, 0);
    UpStep(t, 0, 1);
    ReachIsDescent(t, 100, 0);
    GetMarked(t, Reachable(t, 100), 0);
  }

  // ---- The code ----

  /** Copying form of the fast revocation. It does not ask whether the root is in the table. */
  method RevokeTransitiveFast(t: Table, root: CapId) returns (t': Table)
    requires Layout(t)
    ensures t' == RevokeReachable(t, root)
  {
    var toRevoke := CollectDescendants(t.index, root);
    var newCaps: CapVec := [];
    for i := 0 to |t.caps|
      invariant newCaps == RevokeReachable(t, root).caps[..i]
    {
      var (k, cap) := t.caps[i];
      newCaps := newCaps + [(k, if k in toRevoke then cap.Revoked() else cap)];
    }
    t' := t.(caps := newCaps);
  }

  class RevocationState {
    var caps: CapVec
    var epoch: U64
    var index: ChildrenIndex

    ghost function View(): Table
      reads this
    {
      Table(caps, epoch, index)
    }

    ghost predicate Valid()
      reads this
    {
      Layout(View())
    }

    constructor ()
      ensures Valid() && View() == EMPTY_TABLE
    {
      caps, epoch, index := [], 0, [];
    }

    method AddChildToIndex(parent: CapId, child: CapId)
      requires Sorted(index)
      modifies this`index
      ensures index == AddChild(old(index), parent, child)
    {
      var found, pos := BinarySearch(index, parent);
      if found {
        index := index[pos := (parent, index[pos].1 + [child])];
      } else {
        index := index[..pos] + [(parent, [child])] + index[pos..];
      }
    }

    method InsertMut(cap: Capability) returns (r: Result<(), KernelError>)
      requires Valid()
      modifies this
      ensures Valid()
      ensures match old(View()).InsertCap(cap)
              case Ok(t') => r == Ok(()) && View() == t'
              case Err(e) => r == Err(e) && View() == old(View())
    {
      var exists_, pos := BinarySearch(caps, cap.id);
      if exists_ {
        return Err(CapIdCollision(cap.id));
      }
      InsertKeepsLayout(View(), cap);
      caps := caps[..pos] + [(cap.id, cap)] + caps[pos..];
      if cap.parent.Some? {
        AddChildToIndex(cap.parent.value, cap.id);
      }
      r := Ok(());
    }

    method RevokeIfPresent(id: CapId)
      requires Valid()
      modifies this`caps
      ensures View() == RevokeOne(old(View()), id)
    {
      var present, pos := BinarySearch(caps, id);
      if present {
        caps := caps[pos := (caps[pos].0, caps[pos].1.Revoked())];
      }
    }

    method RevokeTransitiveFastMut(root: CapId) returns (r: Result<(), KernelError>)
      requires Valid()
      modifies this`caps
      ensures Valid()
      ensures r == if old(View()).Present(root) then Ok(()) else Err(CapNotFound(root))
      ensures View() == if r.Ok? then RevokeReachable(old(View()), root) else old(View())
    {
      var found, _ := BinarySearch(caps, root);
      if !found {
        return Err(CapNotFound(root));
      }
      var toRevoke := CollectDescendants(index, root);
      ghost var t := View();
      assert t.caps == Mark(t, Listed(toRevoke[..0])).caps;
      for n := 0 to |toRevoke|
        invariant View() == Mark(t, Listed(toRevoke[..n]))
      {
        GetMarked(t, Listed(toRevoke[..n]), root);
        MarkOneMore(t, toRevoke[..n], toRevoke[n]);
        assert toRevoke[..n + 1] == toRevoke[..n] + [toRevoke[n]];
        RevokeIfPresent(toRevoke[n]);
      }
      assert toRevoke[..|toRevoke|] == toRevoke;
      assert Listed(toRevoke) == Reachable(t, root);
      GetMarked(t, Reachable(t, root), root);
      r := Ok(());
    }
  }
}
